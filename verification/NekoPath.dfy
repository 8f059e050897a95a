/**
 Paths: parsing, printing, and resolving one path against another.
 */
module NekoPaths {

  datatype Parsed = Parsed(absolute: bool, parts: seq<string>)

  /** Parts as the parser makes them. */
  ghost predicate GoodParts(parts: seq<string>)
  {
    forall i :: 0 <= i < |parts| ==> parts[i] != [] && '/' !in parts[i]
  }

  // ---------- what a path string means ----------

  /** The state of the parser: finished parts, the part being read, and whether the path is absolute. */
  datatype State = State(absolute: bool, parts: seq<string>, temp: string)

  function Step(s: State, c: char): State
  {
    if c == '/' then
      if |s.temp| > 0 then State(s.absolute, s.parts + [s.temp], [])
      else State(s.absolute || |s.parts| == 0, s.parts, [])
    else s.(temp := s.temp + [c])
  }

  function Run(s: State, text: string): State
  {
    if |text| == 0 then s else Step(Run(s, text[..|text| - 1]), text[|text| - 1])
  }

  function Finish(s: State): Parsed
  {
    Parsed(s.absolute, if |s.temp| > 0 then s.parts + [s.temp] else s.parts)
  }

  function Parse(text: string): Parsed
  {
    Finish(Run(State(false, [], []), text))
  }

  lemma {:induction false} RunConcat(s: State, a: string, b: string)
    ensures Run(s, a + b) == Run(Run(s, a), b)
  {
    if |b| == 0 {
      assert a + b == a;
    } else {
      RunConcat(s, a, b[..|b| - 1]);
      assert (a + b)[..|a + b| - 1] == a + b[..|b| - 1];
    }
  }

  /** Characters other than '/' go into the part being read. */
  lemma {:induction false} RunPart(s: State, part: string)
    requires '/' !in part
    ensures Run(s, part) == s.(temp := s.temp + part)
  {
    if |part| > 0 {
      RunPart(s, part[..|part| - 1]);
      assert part == part[..|part| - 1] + [part[|part| - 1]];
      assert s.temp + part == s.temp + part[..|part| - 1] + [part[|part| - 1]];
    } else {
      assert s.temp + part == s.temp;
    }
  }

  lemma RunOne(s: State, c: char)
    ensures Run(s, [c]) == Step(s, c)
  {
    assert [c][..0] == [];
    assert Run(s, []) == s;
  }

  /** What the parser makes of any text: non-empty parts without '/'. */
  lemma {:induction false} RunGood(s: State, text: string)
    requires GoodParts(s.parts) && '/' !in s.temp
    ensures var r := Run(s, text); GoodParts(r.parts) && '/' !in r.temp
  {
    if |text| > 0 {
      RunGood(s, text[..|text| - 1]);
    }
  }

  lemma ParsedIsGood(text: string)
    ensures GoodParts(Parse(text).parts)
  {
    RunGood(State(false, [], []), text);
  }

  // ---------- printing ----------

  /** Each part with a '/' behind it. */
  function Joined(parts: seq<string>): string
  {
    if |parts| == 0 then [] else Joined(parts[..|parts| - 1]) + (parts[|parts| - 1] + "/")
  }

  function Print(p: Parsed): string
  {
    (if p.absolute then "/" else []) + Joined(p.parts)
  }

  lemma RunNothing(s: State)
    ensures Run(s, []) == s
  {
  }

  lemma EndPart(absolute: bool, parts: seq<string>, part: string)
    requires |part| > 0
    ensures Step(State(absolute, parts, part), '/') == State(absolute, parts + [part], [])
  {
  }

  lemma {:induction false} RunJoined(s: State, parts: seq<string>)
    requires GoodParts(parts) && s.temp == []
    ensures Run(s, Joined(parts)) == State(s.absolute, s.parts + parts, [])
  {
    hide Run, Step;
    if |parts| == 0 {
      assert s.parts + parts == s.parts;
      RunNothing(s);
    } else {
      var front, last := parts[..|parts| - 1], parts[|parts| - 1];
      RunJoined(s, front);
      RunConcat(s, Joined(front), last + "/");
      RunConcat(Run(s, Joined(front)), last, "/");
      RunPart(Run(s, Joined(front)), last);
      RunOne(Run(Run(s, Joined(front)), last), '/');
      EndPart(s.absolute, s.parts + front, last);
      assert [] + last == last;
      assert s.parts + front + [last] == s.parts + parts;
    }
  }

  /** Parsing what was printed gives the path back, for all paths with good parts, so for all parsed ones. */
  lemma ParsePrint(p: Parsed)
    requires GoodParts(p.parts)
    ensures Parse(Print(p)) == p
  {
    var s := State(false, [], []);
    RunConcat(s, if p.absolute then "/" else [], Joined(p.parts));
    if p.absolute {
      RunOne(s, '/');
    }
    RunJoined(State(p.absolute, [], []), p.parts);
    assert [] + p.parts == p.parts;
  }

  lemma PrintRoundTrip(text: string)
    ensures Parse(Print(Parse(text))) == Parse(text)
  {
    ParsedIsGood(text);
    ParsePrint(Parse(text));
  }

  // ---------- resolving ----------

  /** One part on a stack of parts; ".." on an empty stack is kept. */
  function Push(stack: seq<string>, part: string): seq<string>
  {
    if part == "." then stack
    else if part == ".." && |stack| > 0 then stack[..|stack| - 1]
    else stack + [part]
  }

  function PushAll(stack: seq<string>, parts: seq<string>): seq<string>
  {
    if |parts| == 0 then stack else Push(PushAll(stack, parts[..|parts| - 1]), parts[|parts| - 1])
  }

  function Resolved(base: Parsed, path: Parsed): Parsed
  {
    if |path.parts| == 0 then base
    else if path.absolute then path
    else Parsed(true, PushAll(base.parts, path.parts))
  }

  lemma {:induction false} PushAllGood(stack: seq<string>, parts: seq<string>)
    requires GoodParts(stack) && GoodParts(parts)
    ensures GoodParts(PushAll(stack, parts))
  {
    if |parts| > 0 {
      PushAllGood(stack, parts[..|parts| - 1]);
    }
  }

  /** Going down into parts that are neither "." nor "..", and up again as often, leads back. */
  lemma {:induction false} DownAndUp(stack: seq<string>, parts: seq<string>)
    requires forall i :: 0 <= i < |parts| ==> parts[i] != "." && parts[i] != ".."
    ensures PushAll(stack, parts) == stack + parts
    ensures PushAll(stack + parts, seq(|parts|, i => "..")) == stack
  {
    var ups := seq(|parts|, i => "..");
    if |parts| == 0 {
      assert stack + parts == stack;
    } else {
      var n := |parts| - 1;
      DownAndUp(stack, parts[..n]);
      assert stack + parts[..n] + [parts[n]] == stack + parts;
      assert ups[..n] == seq(n, i => "..");
      UpFrom(stack, parts, n);
    }
  }

  /** k steps up from a stack take its last k parts. */
  lemma {:induction false} UpFrom(stack: seq<string>, parts: seq<string>, k: nat)
    requires k <= |parts|
    ensures PushAll(stack + parts, seq(k, i => "..")) == (stack + parts)[..|stack| + |parts| - k]
  {
    if k > 0 {
      UpFrom(stack, parts, k - 1);
      assert seq(k, i => "..")[..k - 1] == seq(k - 1, i => "..");
    } else {
      assert (stack + parts)[..|stack| + |parts|] == stack + parts;
    }
  }

  lemma {:induction false} PushAllConcat(stack: seq<string>, a: seq<string>, b: seq<string>)
    ensures PushAll(stack, a + b) == PushAll(PushAll(stack, a), b)
  {
    if |b| == 0 {
      assert a + b == a;
    } else {
      PushAllConcat(stack, a, b[..|b| - 1]);
      assert (a + b)[..|a + b| - 1] == a + b[..|b| - 1];
    }
  }

  /** "." can be left out wherever it stands. */
  lemma DotIgnored(stack: seq<string>, a: seq<string>, b: seq<string>)
    ensures PushAll(stack, a + ["."] + b) == PushAll(stack, a + b)
  {
    PushAllConcat(stack, a + ["."], b);
    PushAllConcat(stack, a, b);
    assert (a + ["."])[..|a|] == a;
  }

  /** A part that is neither "." nor ".." and a ".." right behind it can be left out together. */
  lemma UpUndone(stack: seq<string>, a: seq<string>, part: string, b: seq<string>)
    requires part != "." && part != ".."
    ensures PushAll(stack, a + [part, ".."] + b) == PushAll(stack, a + b)
  {
    var s := PushAll(stack, a);
    PushAllConcat(stack, a + [part, ".."], b);
    PushAllConcat(stack, a, [part, ".."]);
    PushAllConcat(stack, a, b);
    DownAndUp(s, [part]);
    PushAllConcat(s, [part], [".."]);
    assert [part] + [".."] == [part, ".."];
    assert seq(1, i => "..") == [".."];
  }

  /** With nothing to go up from, every second ".." stays and the one behind it takes it away. */
  lemma {:induction false} UpFromNothing(n: nat)
    ensures PushAll([], seq(n, i => "..")) == if n % 2 == 1 then [".."] else []
  {
    if n > 0 {
      UpFromNothing(n - 1);
      assert seq(n, i => "..")[..n - 1] == seq(n - 1, i => "..");
    }
  }

  /** From /a/b, the path ../c/./d leads to /a/c/d/ and /x/ to itself. */
  lemma ResolveExample()
    ensures var base := Parsed(true, ["a", "b"]);
            && Resolved(base, Parsed(false, ["..", "c", ".", "d"])) == Parsed(true, ["a", "c", "d"])
            && Resolved(base, Parsed(true, ["x"])) == Parsed(true, ["x"]) && Resolved(base, Parsed(true, [])) == base
    ensures Print(Parsed(true, ["a", "c", "d"])) == "/a/c/d/"
  {
    var ps := ["..", "c", ".", "d"];
    assert ps[..3][..2] == ps[..2] && ps[..2][..1] == ps[..1] && ps[..1][..0] == [];
    assert PushAll(["a", "b"], ps[..1]) == ["a"];
    assert PushAll(["a", "b"], ps[..2]) == ["a", "c"];
    assert PushAll(["a", "b"], ps[..3]) == ["a", "c"];
    var qs := ["a", "c", "d"];
    assert qs[..2][..1] == qs[..1] && qs[..1][..0] == [];
    assert Joined(qs[..1]) == "a/";
    assert Joined(qs[..2]) == "a/c/";
    assert Joined(qs) == "a/c/d/";
  }

  // ---------- the class ----------

  /** Vector::Remove: everything behind idx moves down; the size shrinks by one even if nothing is there. */
  function Remove(parts: seq<string>, idx: nat): (r: seq<string>)
    requires |parts| > 0
    ensures |r| == |parts| - 1
  {
    if idx < |parts| then parts[..idx] + parts[idx + 1..] else parts[..|parts| - 1]
  }

  class Path {
    var isAbsolute: bool
    var parts: seq<string>

    ghost function Value(): Parsed
      reads this
    {
      Parsed(isAbsolute, parts)
    }

    constructor Empty()
      ensures Value() == Parsed(false, [])
    {
      isAbsolute, parts := false, [];
    }

    constructor (path: string)
      ensures Value() == Parse(path) && GoodParts(parts)
    {
      isAbsolute, parts := false, [];
      new;
      ghost var start := State(false, [], []);
      var temp: string := [];
      var i := 0;
      while i < |path|
        invariant i <= |path| && Run(start, path[..i]) == State(isAbsolute, parts, temp)
      {
        assert path[..i + 1][..i] == path[..i];
        if path[i] == '/' {
          if |temp| > 0 {
            parts := parts + [temp];
          } else if |parts| == 0 {
            isAbsolute := true;
          }
          temp := [];
        } else {
          temp := temp + [path[i]];
        }
        i := i + 1;
      }
      assert path[..i] == path;
      if |temp| > 0 {
        parts := parts + [temp];
      }
      ParsedIsGood(path);
    }

    method ToString() returns (result: string)
      ensures result == Print(Value())
    {
      result := [];
      if isAbsolute {
        result := result + "/";
      }
      var start := result;
      assert start + Joined([]) == start;
      var i := 0;
      while i < |parts|
        invariant i <= |parts| && result == start + Joined(parts[..i])
      {
        assert parts[..i + 1][..i] == parts[..i];
        result := result + (parts[i] + "/");
        i := i + 1;
      }
      assert parts[..i] == parts;
    }
  }

  /** One part of a relative path. The index j is never inside the parts, so Remove takes the last one. */
  method ResolvePart(result: Path, part: string, j: nat) returns (next: nat)
    requires j >= |result.parts|
    modifies result
    ensures result.isAbsolute == old(result.isAbsolute)
    ensures result.parts == Push(old(result.parts), part) && next >= |result.parts|
  {
    next := j;
    if part != "." {
      if part == ".." && |result.parts| > 0 {
        result.parts := Remove(result.parts, next);
        next := next - 1;
      } else {
        result.parts := result.parts + [part];
      }
    }
    next := next + 1;
  }

  /** Path::Resolve is a stack machine. */
  method Resolve(base: Path, path: Path) returns (result: Path)
    requires GoodParts(base.parts) && GoodParts(path.parts)
    ensures fresh(result) && result.Value() == Resolved(base.Value(), path.Value()) && GoodParts(result.parts)
  {
    PushAllGood(base.parts, path.parts);
    if |path.parts| == 0 {
      var text := base.ToString();
      ParsePrint(base.Value());
      result := new Path(text);
      return;
    }
    if path.isAbsolute {
      var text := path.ToString();
      ParsePrint(path.Value());
      result := new Path(text);
      return;
    }
    result := new Path.Empty();
    result.isAbsolute := true;
    var j := 0;
    var i := 0;
    while i < |base.parts|
      invariant i <= |base.parts| && j == i && result.isAbsolute && result.parts == base.parts[..i]
    {
      result.parts := result.parts + [base.parts[i]];
      i, j := i + 1, j + 1;
    }
    assert base.parts[..i] == base.parts;
    assert path.parts[..0] == [];
    i := 0;
    while i < |path.parts|
      invariant i <= |path.parts| && j >= |result.parts| && result.isAbsolute
      invariant result.parts == PushAll(base.parts, path.parts[..i])
    {
      assert path.parts[..i + 1][..i] == path.parts[..i];
      j := ResolvePart(result, path.parts[i], j);
      i := i + 1;
    }
    assert path.parts[..i] == path.parts;
  }
}
