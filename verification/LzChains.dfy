/**
 Chains of positions with equal keys, kept in slots that are used again after a window: each slot links to the
 latest earlier position with its key, as long as that one is still in the window. The hash chains of the LZ77
 encoder are two of these, one over hash values and one over zero counts.
 */
module LzChains {

  /** The slots of the last w positions before n: slot s was last written by position posOf[s]. */
  ghost predicate Slots(posOf: seq<nat>, w: nat, n: nat)
  {
    && |posOf| == w
    && (forall s :: 0 <= s < w && s < n ==> posOf[s] < n <= posOf[s] + w)
    && forall s, t :: 0 <= s < t < w && t < n ==> posOf[s] != posOf[t]
  }

  /** The head of the slot's key is the slot of the latest position with that key, or a later one. */
  ghost predicate HeadOk(key: seq<int>, head: seq<int>, posOf: seq<nat>, w: nat, n: nat, s: nat)
    requires |key| == |posOf| == w && s < w && s < n
  {
    && 0 <= key[s] < |head|
    && var h := head[key[s]];
       0 <= h < w && h < n && key[h] == key[s] && posOf[s] <= posOf[h]
  }

  /** Every key in use has its head, but for the one that was taken back (-1 for none). */
  ghost predicate Heads(key: seq<int>, head: seq<int>, posOf: seq<nat>, w: nat, n: nat, gone: int)
  {
    && |key| == |posOf| == w
    && (forall s: nat :: s < w && s < n ==> 0 <= key[s] < |head|)
    && (0 <= gone < |head| ==> head[gone] == -1)
    && forall s: nat :: s < w && s < n && key[s] != gone ==> HeadOk(key, head, posOf, w, n, s)
  }

  /** Slot s links behind, or to, every earlier position with its key. */
  ghost predicate LinkOk(key: seq<int>, link: seq<nat>, posOf: seq<nat>, w: nat, n: nat, s: nat, t: nat)
    requires |key| == |link| == |posOf| == w && s < w && s < n && t < w && t < n
  {
    key[s] == key[t] && posOf[t] < posOf[s] ==>
      && link[s] < w && link[s] < n && key[link[s]] == key[s] && posOf[t] <= posOf[link[s]] < posOf[s]
  }

  ghost predicate Links(key: seq<int>, link: seq<nat>, posOf: seq<nat>, w: nat, n: nat)
  {
    && |key| == |link| == |posOf| == w
    && forall s: nat, t: nat :: s < w && s < n && t < w && t < n ==> LinkOk(key, link, posOf, w, n, s, t)
  }

  /** What inserting a position does to one chain. */
  function Linked(link: seq<nat>, head: seq<int>, slot: nat, key: nat): (r: seq<nat>)
    requires slot < |link| && key < |head| && head[key] >= -1
    ensures |r| == |link|
  {
    if head[key] != -1 then link[slot := head[key]] else link
  }

  /** The slot of a new position was last used by the oldest one, or never. */
  lemma OldestGoes(posOf: seq<nat>, w: nat, n: nat, slot: nat, s: nat)
    requires Slots(posOf, w, n) && slot < w && (slot < n ==> posOf[slot] + w == n) && s < w && s < n && s != slot
    ensures slot < n ==> posOf[slot] < posOf[s]
  {
    if slot < n {
      assert posOf[s] != posOf[slot];
    }
  }

  lemma NewHeads(key: seq<int>, head: seq<int>, posOf: seq<nat>, w: nat, n: nat, slot: nat, k: nat)
    requires Slots(posOf, w, n) && slot < w && slot <= n && (slot < n ==> posOf[slot] + w == n) && k < |head|
    requires Heads(key, head, posOf, w, n, -1)
    requires n < w ==> slot == n
    ensures Heads(key[slot := k], head[k := slot], posOf[slot := n], w, n + 1, -1)
  {
    var key', head', posOf' := key[slot := k], head[k := slot], posOf[slot := n];
    forall s: nat | s < w && s < n + 1 && key'[s] != -1
      ensures HeadOk(key', head', posOf', w, n + 1, s)
    {
      if s != slot {
        assert HeadOk(key, head, posOf, w, n, s);
        OldestGoes(posOf, w, n, slot, s);
      }
    }
  }

  lemma NewLinks(key: seq<int>, head: seq<int>, link: seq<nat>, posOf: seq<nat>, w: nat, n: nat, slot: nat, k: nat)
    requires Slots(posOf, w, n) && slot < w && slot <= n && (slot < n ==> posOf[slot] + w == n) && k < |head| && head[k] >= -1
    requires Heads(key, head, posOf, w, n, -1) && Links(key, link, posOf, w, n)
    requires n < w ==> slot == n
    ensures Links(key[slot := k], Linked(link, head, slot, k), posOf[slot := n], w, n + 1)
  {
    var key', link', posOf', m := key[slot := k], Linked(link, head, slot, k), posOf[slot := n], n + 1;
    forall s: nat, t: nat | s < w && s < m && t < w && t < m
      ensures LinkOk(key', link', posOf', w, m, s, t)
    {
      if key'[s] == key'[t] && posOf'[t] < posOf'[s] {
        assert t != slot && t < n;
        OldestGoes(posOf, w, n, slot, t);
        if s == slot {
          assert HeadOk(key, head, posOf, w, n, t);
        } else {
          assert LinkOk(key, link, posOf, w, n, s, t);
        }
      }
    }
  }

  /** Inserting the last position again after its head was taken back changes its head only. */
  lemma AgainHeads(key: seq<int>, head: seq<int>, posOf: seq<nat>, w: nat, n: nat, slot: nat)
    requires Slots(posOf, w, n) && |key| == w && slot < w && slot < n && posOf[slot] + 1 == n && 0 <= key[slot] < |head|
    requires Heads(key, head, posOf, w, n, key[slot])
    ensures Heads(key, head[key[slot] := slot], posOf, w, n, -1)
  {
    var head' := head[key[slot] := slot];
    forall s: nat | s < w && s < n && key[s] != -1
      ensures HeadOk(key, head', posOf, w, n, s)
    {
      if key[s] != key[slot] {
        assert HeadOk(key, head, posOf, w, n, s);
      }
    }
  }

  /** Taking a head back. */
  lemma GoneHead(key: seq<int>, head: seq<int>, posOf: seq<nat>, w: nat, n: nat, k: nat)
    requires Heads(key, head, posOf, w, n, -1) && k < |head|
    ensures Heads(key, head[k := -1], posOf, w, n, k)
  {
    var head' := head[k := -1];
    forall s: nat | s < w && s < n && key[s] != k
      ensures HeadOk(key, head', posOf, w, n, s)
    {
      assert HeadOk(key, head, posOf, w, n, s);
    }
  }
}
