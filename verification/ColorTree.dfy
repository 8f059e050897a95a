/**
 The tree that finds the palette index of a colour: eight levels, one for each bit of the channels,
 with up to sixteen children each.
 */
module ColorTrees {
  import opened Bits
  import opened SingleBits

  datatype Pixel = Pixel(r: byte, g: byte, b: byte, a: byte)

  datatype ColorTree = Node(children: map<nat, ColorTree>, index: int)

  function Empty(): ColorTree
  {
    Node(map[], -1)
  }

  /** The child for bit number `bit` of a colour. */
  function Child(c: Pixel, bit': nat): nat
  {
    8 * (Shr(c.r, bit') % 2) + 4 * (Shr(c.g, bit') % 2) + 2 * (Shr(c.b, bit') % 2) + Shr(c.a, bit') % 2
  }

  /** color_tree_get, from the level of this bit on: -1 if the colour is not there. */
  function Get(t: ColorTree, c: Pixel, bit': nat): int
    requires bit' <= 8
    decreases 8 - bit'
  {
    if bit' == 8 then t.index
    else if Child(c, bit') in t.children then Get(t.children[Child(c, bit')], c, bit' + 1)
    else -1
  }

  function Add(t: ColorTree, c: Pixel, bit': nat, index: int): ColorTree
    requires bit' <= 8
    decreases 8 - bit'
  {
    if bit' == 8 then t.(index := index)
    else
      var sub := if Child(c, bit') in t.children then t.children[Child(c, bit')] else Empty();
      t.(children := t.children[Child(c, bit') := Add(sub, c, bit' + 1, index)])
  }

  /** Two colours agree from this bit on. */
  ghost predicate SameFrom(c: Pixel, d: Pixel, bit': nat)
  {
    forall k: nat :: bit' <= k < 8 ==> Child(c, k) == Child(d, k)
  }

  /** Adding a colour changes what is found for that colour only. */
  lemma {:induction false} GetAdd(t: ColorTree, c: Pixel, d: Pixel, bit': nat, index: int)
    requires bit' <= 8
    ensures Get(Add(t, c, bit', index), d, bit') == if SameFrom(c, d, bit') then index else Get(t, d, bit')
    decreases 8 - bit'
  {
    hide Child;
    if bit' < 8 {
      var sub := if Child(c, bit') in t.children then t.children[Child(c, bit')] else Empty();
      if Child(c, bit') == Child(d, bit') {
        GetAdd(sub, c, d, bit' + 1, index);
        NextSame(c, d, bit', bit' + 1);
        if Child(c, bit') !in t.children {
          GetEmpty(d, bit' + 1);
        }
      }
    }
  }

  lemma NextSame(c: Pixel, d: Pixel, bit': nat, m: nat)
    requires bit' < 8 && Child(c, bit') == Child(d, bit') && m == bit' + 1
    ensures SameFrom(c, d, bit') <==> SameFrom(c, d, m)
  {
    hide Child;
    if SameFrom(c, d, m) {
      forall k: nat | bit' <= k < 8
        ensures Child(c, k) == Child(d, k)
      {
        if k > bit' { assert m <= k; }
      }
    }
  }

  lemma GetEmpty(d: Pixel, bit': nat)
    requires bit' <= 8
    ensures Get(Empty(), d, bit') == -1
  {
  }

  lemma ChildBits(c: Pixel, d: Pixel, k: nat)
    requires Child(c, k) == Child(d, k)
    ensures Shr(c.r, k) % 2 == Shr(d.r, k) % 2 && Shr(c.g, k) % 2 == Shr(d.g, k) % 2
    ensures Shr(c.b, k) % 2 == Shr(d.b, k) % 2 && Shr(c.a, k) % 2 == Shr(d.a, k) % 2
  {
    hide Shr;
  }

  /** Colours that agree in all bits are equal. */
  lemma SameColor(c: Pixel, d: Pixel)
    ensures SameFrom(c, d, 0) <==> c == d
  {
    hide Child, Shr, Pow2;
    if SameFrom(c, d, 0) {
      ByteBound();
      forall k: nat | k < 8
        ensures Shr(c.r, k) % 2 == Shr(d.r, k) % 2 && Shr(c.g, k) % 2 == Shr(d.g, k) % 2
        ensures Shr(c.b, k) % 2 == Shr(d.b, k) % 2 && Shr(c.a, k) % 2 == Shr(d.a, k) % 2
      {
        ChildBits(c, d, k);
      }
      SameNumber(c.r, d.r, 8);
      SameNumber(c.g, d.g, 8);
      SameNumber(c.b, d.b, 8);
      SameNumber(c.a, d.a, 8);
    }
  }

  // ---------- the tree of a palette ----------

  /** The tree finds each colour of the palette at its place, and no other colour. */
  ghost predicate TreeOf(t: ColorTree, palette: seq<Pixel>)
  {
    forall c: Pixel :: IndexIn(Get(t, c, 0), palette, c)
  }

  /** i is the place of c in the palette, or -1 if it is not there. */
  ghost predicate IndexIn(i: int, palette: seq<Pixel>, c: Pixel)
  {
    if c in palette then 0 <= i < |palette| && palette[i] == c else i == -1
  }

  lemma EmptyTree()
    ensures TreeOf(Empty(), [])
  {
    forall c: Pixel
      ensures IndexIn(Get(Empty(), c, 0), [], c)
    {
      GetEmpty(c, 0);
    }
  }

  lemma TreeAdded(t: ColorTree, palette: seq<Pixel>, c: Pixel)
    requires TreeOf(t, palette)
    ensures TreeOf(Add(t, c, 0, |palette|), palette + [c])
  {
    hide Get, Add, SameFrom;
    var t', p' := Add(t, c, 0, |palette|), palette + [c];
    forall d: Pixel
      ensures IndexIn(Get(t', d, 0), p', d)
    {
      GetAdd(t, c, d, 0, |palette|);
      SameColor(c, d);
      assert IndexIn(Get(t, d, 0), palette, d);
    }
  }

  /** color_tree_add, level by level. */
  method BuildTree(palette: seq<Pixel>) returns (t: ColorTree)
    ensures TreeOf(t, palette)
  {
    hide TreeOf, Add;
    t := Empty();
    EmptyTree();
    var i := 0;
    while i != |palette|
      invariant i <= |palette| && TreeOf(t, palette[..i])
    {
      TreeAdded(t, palette[..i], palette[i]);
      assert palette[..i + 1] == palette[..i] + [palette[i]];
      t := Add(t, palette[i], 0, i);
      i := i + 1;
    }
    assert palette[..i] == palette;
  }
}
