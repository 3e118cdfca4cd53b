/**
 * What both generations of GPSettings share: java.util.Properties lookups with a default, the
 * integer getters built on them, and the operator and operand lists, each a comma separated
 * property that is split and trimmed into a cached list the first time it is asked for, with
 * an update that moves a value to the end of the cached list and writes the list back as one
 * comma joined string.
 */
module Properties {
  import opened Wrappers
  import opened Strings

  const Comma: char := ','

  /** Properties.getProperty(key, default). */
  function GetProperty(props: map<string, string>, key: string, default: string): string
  {
    if key in props then props[key] else default
  }

  /** getIntProperty: Integer.parseInt of the property or its default. */
  function IntProperty(props: map<string, string>, key: string, default: string): (r: Result<int>)
    ensures r.Err? ==> r.fault == NumberFormat
  {
    ParseInteger(GetProperty(props, key, default), IntMin, IntMax)
  }

  /** What setIntProperty stores is what getIntProperty reads back, whatever the default. */
  lemma IntPropertyStored(props: map<string, string>, key: string, value: int, default: string)
    requires IntMin <= value <= IntMax
    ensures IntProperty(props[key := IntToString(value)], key, default) == Ok(value)
  {
    ParseIntToString(value, IntMin, IntMax);
  }

  /** String.split(",") followed by String.trim on every token. */
  function Tokens(s: string): (r: seq<string>)
    ensures |r| == |Split(s, Comma)|
  {
    TrimAll(Split(s, Comma))
  }

  function TrimAll(pieces: seq<string>): (r: seq<string>)
    ensures |r| == |pieces|
  {
    seq(|pieces|, k requires 0 <= k < |pieces| => Trim(pieces[k]))
  }

  /** Vector.remove(Object): the first element equal to v is dropped. */
  function RemoveFirst(l: seq<string>, v: string): (r: seq<string>)
  {
    if |l| == 0 then [] else if l[0] == v then l[1..] else [l[0]] + RemoveFirst(l[1..], v)
  }

  /** setOperatorProperty / setOperandProperty on the cached list: contains, remove, add. */
  function Added(l: seq<string>, v: string): seq<string>
  {
    (if v in l then RemoveFirst(l, v) else l) + [v]
  }

  /** The elements other than v, in their order. */
  function Without(l: seq<string>, v: string): seq<string>
  {
    if |l| == 0 then [] else if l[0] == v then Without(l[1..], v) else [l[0]] + Without(l[1..], v)
  }

  /** A run of updates, in call order. */
  function AddedAll(l: seq<string>, vs: seq<string>): seq<string>
    decreases |vs|
  {
    if |vs| == 0 then l else AddedAll(Added(l, vs[0]), vs[1..])
  }

  lemma RemoveFirstFacts(l: seq<string>, v: string)
    ensures v !in l ==> RemoveFirst(l, v) == l
    ensures v in l ==> multiset(RemoveFirst(l, v)) == multiset(l) - multiset{v}
    ensures Without(RemoveFirst(l, v), v) == Without(l, v)
  {
    if v in l {
      RemoveFirstMultiset(l, v);
    } else {
      RemoveFirstAbsent(l, v);
    }
    RemoveFirstWithout(l, v);
  }

  lemma {:induction false} RemoveFirstAbsent(l: seq<string>, v: string)
    requires v !in l
    ensures RemoveFirst(l, v) == l
  {
    if |l| > 0 {
      assert l == [l[0]] + l[1..];
      RemoveFirstAbsent(l[1..], v);
    }
  }

  lemma {:induction false} RemoveFirstMultiset(l: seq<string>, v: string)
    requires v in l
    ensures multiset(RemoveFirst(l, v)) == multiset(l) - multiset{v}
  {
    assert l == [l[0]] + l[1..];
    if l[0] != v {
      RemoveFirstMultiset(l[1..], v);
      var r := RemoveFirst(l[1..], v);
      assert RemoveFirst(l, v) == [l[0]] + r;
      assert multiset(RemoveFirst(l, v)) == multiset{l[0]} + multiset(r);
    }
  }

  lemma {:induction false} RemoveFirstWithout(l: seq<string>, v: string)
    ensures Without(RemoveFirst(l, v), v) == Without(l, v)
  {
    if |l| > 0 && l[0] != v {
      RemoveFirstWithout(l[1..], v);
      var r := RemoveFirst(l[1..], v);
      assert ([l[0]] + r)[1..] == r;
    }
  }

  lemma {:induction false} WithoutAppend(l: seq<string>, x: string, v: string)
    ensures Without(l + [x], v) == Without(l, v) + (if x == v then [] else [x])
  {
    if |l| == 0 {
      assert [x][1..] == [];
    } else {
      assert (l + [x])[1..] == l[1..] + [x];
      WithoutAppend(l[1..], x, v);
    }
  }

  /**
   * The update keeps every value it had, puts v last, and leaves the order of the other
   * values alone; v is not duplicated unless the list held it twice already.
   */
  lemma AddedFacts(l: seq<string>, v: string)
    ensures |Added(l, v)| > 0 && Added(l, v)[|Added(l, v)| - 1] == v
    ensures multiset(Added(l, v)) == if v in l then multiset(l) else multiset(l) + multiset{v}
    ensures multiset(l)[v] <= 1 ==> multiset(Added(l, v))[v] == 1
    ensures Without(Added(l, v), v) == Without(l, v)
  {
    RemoveFirstFacts(l, v);
    var base := if v in l then RemoveFirst(l, v) else l;
    WithoutAppend(base, v, v);
    assert Added(l, v) == base + [v];
    assert multiset(Added(l, v)) == multiset(base) + multiset{v};
    if v in l {
      assert multiset(l)[v] >= 1;
      assert multiset(base) == multiset(l) - multiset{v};
    } else {
      assert multiset(l)[v] == 0;
    }
  }

  /** Adding a value that is already last and unique changes nothing. */
  lemma AddedTwice(l: seq<string>, v: string)
    requires multiset(l)[v] <= 1
    ensures Added(Added(l, v), v) == Added(l, v)
  {
    AddedFacts(l, v);
    var a := Added(l, v);
    var n := |a|;
    assert a == a[..n - 1] + [v];
    assert multiset(a) == multiset(a[..n - 1]) + multiset{v};
    assert v !in a[..n - 1];
    RemoveLastOccurrence(a[..n - 1], v);
  }

  lemma {:induction false} RemoveLastOccurrence(p: seq<string>, v: string)
    requires v !in p
    ensures RemoveFirst(p + [v], v) == p
  {
    if |p| == 0 {
      assert [v][1..] == [];
    } else {
      assert (p + [v])[1..] == p[1..] + [v];
      RemoveLastOccurrence(p[1..], v);
      assert [p[0]] + p[1..] == p;
    }
  }

  /** Moving a value that sits after a prefix free of it. */
  lemma {:induction false} AddedMoves(a: seq<string>, v: string, b: seq<string>)
    requires v !in a
    ensures Added(a + [v] + b, v) == a + b + [v]
  {
    RemoveFirstAfter(a, v, b);
  }

  lemma {:induction false} RemoveFirstAfter(a: seq<string>, v: string, b: seq<string>)
    requires v !in a
    ensures RemoveFirst(a + [v] + b, v) == a + b
  {
    if |a| == 0 {
      assert ([v] + b)[1..] == b;
    } else {
      assert (a + [v] + b)[1..] == a[1..] + [v] + b;
      RemoveFirstAfter(a[1..], v, b);
      assert [a[0]] + (a[1..] + b) == a + b;
    }
  }

  /** Comma free tokens that trim to themselves. */
  predicate Storable(l: seq<string>)
  {
    forall k :: 0 <= k < |l| ==> Comma !in l[k] && Trimmed(l[k])
  }

  /**
   * Splitting and trimming the written back string gives the list again, so a later reload of
   * the cache sees the same list, when the tokens are comma free and trimmed and the last one
   * is not empty.
   */
  lemma TokensOfJoin(l: seq<string>)
    requires |l| > 0 && Storable(l)
    requires |l| == 1 || l[|l| - 1] != ""
    ensures Tokens(Join(l, Comma)) == l
  {
    SplitJoin(l, Comma);
    TrimAllOfTrimmed(l);
  }

  lemma TrimAllOfTrimmed(l: seq<string>)
    requires Storable(l)
    ensures TrimAll(l) == l
  {
    forall k | 0 <= k < |l|
      ensures TrimAll(l)[k] == l[k]
    {
      TrimOfTrimmed(l[k]);
    }
  }

  /** The update keeps a list storable when the value is. */
  lemma AddedStorable(l: seq<string>, v: string)
    requires Storable(l) && Comma !in v && Trimmed(v)
    ensures Storable(Added(l, v))
  {
    AddedFacts(l, v);
    var a := Added(l, v);
    forall k | 0 <= k < |a|
      ensures Comma !in a[k] && Trimmed(a[k])
    {
      assert a[k] in multiset(a);
    }
  }

  /** An update with a storable value reloads to the updated list. */
  lemma AddedReloads(l: seq<string>, v: string)
    requires Storable(l) && Comma !in v && Trimmed(v) && v != ""
    ensures Tokens(Join(Added(l, v), Comma)) == Added(l, v)
  {
    AddedFacts(l, v);
    AddedStorable(l, v);
    TokensOfJoin(Added(l, v));
  }

  lemma {:induction false} JoinSnoc(l: seq<string>, x: string)
    requires |l| > 0
    ensures Join(l + [x], Comma) == Join(l, Comma) + [Comma] + x
  {
    if |l| == 1 {
      assert (l + [x])[1..] == [x];
    } else {
      assert (l + [x])[1..] == l[1..] + [x];
      JoinSnoc(l[1..], x);
    }
  }

  /**
   * The write-back loop of both setters: the first element, then "," and each further element.
   * Vector.firstElement fails on an empty list, which the update never leaves behind.
   */
  method CommaJoin(l: seq<string>) returns (composite: string)
    requires |l| > 0
    ensures composite == Join(l, Comma)
  {
    composite := l[0];
    var i := 1;
    while i < |l|
      invariant 1 <= i <= |l|
      invariant composite == Join(l[..i], Comma)
    {
      JoinSnoc(l[..i], l[i]);
      assert l[..i + 1] == l[..i] + [l[i]];
      composite := composite + [Comma] + l[i];
      i := i + 1;
    }
    assert l[..i] == l;
  }

  /** The load loop of both lazy getters: one trimmed token per piece of the split. */
  method SplitTrimmed(s: string) returns (l: seq<string>)
    ensures l == Tokens(s)
  {
    var pieces := Split(s, Comma);
    l := TrimEach(pieces);
  }

  /** The loop body of the load: String.trim on each piece, in order. */
  method TrimEach(pieces: seq<string>) returns (l: seq<string>)
    ensures l == TrimAll(pieces)
  {
    ghost var t := TrimAll(pieces);
    l := [];
    for i := 0 to |pieces|
      invariant l == t[..i]
    {
      assert t[..i + 1] == t[..i] + [t[i]];
      l := l + [Trim(pieces[i])];
    }
    assert t[..|pieces|] == t;
  }
}
