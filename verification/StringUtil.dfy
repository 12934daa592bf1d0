/** The list encoding of the chat store: strings split on a separator with the
    semantics of `std::getline`, and joined by the loop that only writes a
    separator once something has been written. */
module StringUtil {

  /** Position of the first `d` in `s`, or `|s|`. */
  function Find(s: string, d: char): (k: nat)
    ensures k <= |s| && d !in s[..k]
    ensures k < |s| ==> s[k] == d
  {
    if s == "" || s[0] == d then 0
    else
      assert s[..1 + Find(s[1..], d)] == [s[0]] + s[1..][..Find(s[1..], d)];
      1 + Find(s[1..], d)
  }

  /** What repeated `getline` calls extract: an empty piece after a final
      separator is not produced. */
  function Split(s: string, d: char): (pieces: seq<string>)
    decreases |s|
  {
    if s == "" then []
    else
      var k := Find(s, d);
      if k == |s| then [s] else [s[..k]] + Split(s[k + 1..], d)
  }

  /** The accumulation loop of `serializar` and `getId`. */
  function Join(pieces: seq<string>, d: char): (s: string)
  {
    if pieces == [] then ""
    else
      var acc := Join(pieces[..|pieces| - 1], d);
      (if acc == "" then "" else acc + [d]) + pieces[|pieces| - 1]
  }

  /** `StringUtil::split`: the `getline` loop pushing to a vector. */
  method SplitLoop(s: string, d: char) returns (elems: seq<string>)
    ensures elems == Split(s, d)
  {
    hide Split, Find, LeftAfter;
    elems := [];
    var rest := s;
    while rest != ""
      invariant elems + Split(rest, d) == Split(s, d)
      decreases |rest|
    {
      var k := Find(rest, d);
      SplitNext(rest, d);
      Regroup(elems, rest[..k], Split(LeftAfter(rest, k), d));
      elems := elems + [rest[..k]];
      rest := LeftAfter(rest, k);
    }
    SplitNone(d);
  }

  lemma SplitNext(s: string, d: char)
    requires s != ""
    ensures var k := Find(s, d);
            Split(s, d) == [s[..k]] + Split(LeftAfter(s, k), d)
  {
    hide Find;
    SplitNone(d);
    assert s[..|s|] == s;
  }

  /** What `getline` leaves in the stream after a piece of `k` characters. */
  function LeftAfter(s: string, k: nat): (rest: string)
    requires k <= |s|
    ensures s != "" ==> |rest| < |s|
  {
    if k == |s| then "" else s[k + 1..]
  }

  lemma Regroup(a: seq<string>, x: string, b: seq<string>)
    ensures a + ([x] + b) == (a + [x]) + b
  {
  }

  lemma SplitNone(d: char)
    ensures Split("", d) == []
  {
  }

  // ---------------------------------------------------------------------
  // A reference reading, one character at a time.

  /** The fields of `s`, the trailing empty one included: a separator opens a new field and
      any other character belongs to the field it stands in. */
  ghost function Fields(s: string, d: char): (fields: seq<string>)
    ensures fields != []
  {
    if s == "" then [""]
    else
      var f := Fields(s[1..], d);
      if s[0] == d then [""] + f else [[s[0]] + f[0]] + f[1..]
  }

  lemma FieldsCons(c: char, s: string, d: char)
    ensures var f := Fields(s, d);
            Fields([c] + s, d) == if c == d then [""] + f else [[c] + f[0]] + f[1..]
  {
    assert ([c] + s)[1..] == s;
  }

  lemma FieldsOfNothing(d: char)
    ensures Fields("", d) == [""]
  {
  }

  /** The first field ends at the first separator. */
  lemma {:induction false} FieldsFind(s: string, d: char)
    ensures var k := Find(s, d);
            Fields(s, d) == if k == |s| then [s] else [s[..k]] + Fields(s[k + 1..], d)
  {
    hide Fields;
    if s == "" {
      FieldsOfNothing(d);
    } else {
      var c, rest := s[0], s[1..];
      assert s == [c] + rest;
      FieldsCons(c, rest, d);
      if c == d {
        assert s[..0] == "";
      } else {
        FieldsFind(rest, d);
        FindNext(s, d);
        FirstFieldOf(s, Find(rest, d), Fields(if Find(rest, d) < |rest| then rest[Find(rest, d) + 1..] else "", d));
      }
    }
  }

  lemma FindNext(s: string, d: char)
    requires s != "" && s[0] != d
    ensures Find(s, d) == 1 + Find(s[1..], d)
  {
  }

  lemma FirstFieldOf(s: string, k: nat, f: seq<string>)
    requires k < |s|
    ensures [s[0]] + s[1..][..k] == s[..k + 1] && (k + 1 < |s| ==> s[1..][k + 1..] == s[k + 2..])
    ensures ([s[1..][..k]] + f)[0] == s[1..][..k] && ([s[1..][..k]] + f)[1..] == f
  {
  }

  lemma FindUnique(s: string, d: char, k: nat)
    requires k <= |s| && d !in s[..k] && (k < |s| ==> s[k] == d)
    ensures Find(s, d) == k
  {
    assert forall j :: 0 <= j < k ==> s[j] in s[..k];
    assert forall j :: 0 <= j < Find(s, d) ==> s[j] in s[..Find(s, d)];
  }

  /** `Split` is the list of fields without a final empty one. */
  lemma {:induction false} SplitIsFields(s: string, d: char)
    ensures var f := Fields(s, d);
            Split(s, d) == if f[|f| - 1] == "" then f[..|f| - 1] else f
    decreases |s|
  {
    hide Fields, Find;
    FieldsFind(s, d);
    var k := Find(s, d);
    if k < |s| {
      SplitIsFields(s[k + 1..], d);
      DropLast(s[..k], Fields(s[k + 1..], d));
    }
  }

  lemma DropLast(x: string, g: seq<string>)
    requires g != []
    ensures ([x] + g)[|g|] == g[|g| - 1] && ([x] + g)[..|g|] == [x] + g[..|g| - 1]
  {
  }

  /** Fields of a concatenation around one separator. */
  lemma {:induction false} FieldsConcat(t: string, u: string, d: char)
    ensures Fields(t + [d] + u, d) == Fields(t, d) + Fields(u, d)
  {
    hide Fields;
    if t == "" {
      FieldsCons(d, u, d);
      FieldsOfNothing(d);
      assert "" + [d] + u == [d] + u;
    } else {
      var rest := t[1..] + [d] + u;
      assert t + [d] + u == [t[0]] + rest && t == [t[0]] + t[1..];
      FieldsConcat(t[1..], u, d);
      FieldsCons(t[0], rest, d);
      FieldsCons(t[0], t[1..], d);
      FirstOf(Fields(t[1..], d), Fields(u, d), [t[0]]);
    }
  }

  lemma FirstOf(f: seq<string>, g: seq<string>, x: string)
    requires f != []
    ensures [x + (f + g)[0]] + (f + g)[1..] == ([x + f[0]] + f[1..]) + g
    ensures [""] + (f + g) == ([""] + f) + g
  {
  }

  lemma {:induction false} FieldsOfFree(s: string, d: char)
    requires d !in s
    ensures Fields(s, d) == [s]
  {
    if s != "" {
      FieldsOfFree(s[1..], d);
      assert s == [s[0]] + s[1..];
    }
  }

  lemma {:induction false} FieldsAreFree(s: string, d: char)
    ensures forall p :: p in Fields(s, d) ==> d !in p
  {
    if s != "" { FieldsAreFree(s[1..], d); }
  }

  lemma SplitIsFree(s: string, d: char)
    ensures forall p :: p in Split(s, d) ==> d !in p
  {
    SplitIsFields(s, d);
    FieldsAreFree(s, d);
  }

  /** Appending one piece appends one element, which is how an index grows. */
  lemma SplitAppend(t: string, p: string, d: char)
    requires t != "" && t[|t| - 1] != d && p != "" && d !in p
    ensures Split(t + [d] + p, d) == Split(t, d) + [p]
  {
    FieldsConcat(t, p, d);
    FieldsOfFree(p, d);
    SplitIsFields(t + [d] + p, d);
    SplitIsFields(t, d);
    LastField(t, d);
  }

  lemma {:induction false} LastField(t: string, d: char)
    ensures var f := Fields(t, d);
            f[|f| - 1] == "" <==> t == "" || t[|t| - 1] == d
    decreases |t|
  {
    hide Fields;
    FieldsFind(t, d);
    var k := Find(t, d);
    if k < |t| {
      var u := t[k + 1..];
      LastField(u, d);
      var f, g := Fields(t, d), Fields(u, d);
      assert f == [t[..k]] + g && f[|f| - 1] == g[|g| - 1];
      if u != "" { assert u[|u| - 1] == t[|t| - 1]; }
    } else if t != "" {
      assert t[..k] == t && t[|t| - 1] in t;
    }
  }

  // ---------------------------------------------------------------------
  // When splitting inverts joining.

  ghost predicate AllFree(pieces: seq<string>, d: char) {
    forall p :: p in pieces ==> d !in p
  }

  /** The exact domain of the round trip. */
  ghost predicate Listable(pieces: seq<string>, d: char) {
    && AllFree(pieces, d)
    && (pieces != [] ==> pieces[0] != "" && pieces[|pieces| - 1] != "")
  }

  lemma {:induction false} JoinFields(pieces: seq<string>, d: char)
    requires pieces != [] && pieces[0] != "" && AllFree(pieces, d)
    ensures Join(pieces, d) != ""
    ensures Fields(Join(pieces, d), d) == pieces
  {
    var n := |pieces| - 1;
    FieldsOfFree(pieces[n], d);
    if n > 0 {
      JoinFields(pieces[..n], d);
      FieldsConcat(Join(pieces[..n], d), pieces[n], d);
      assert pieces == pieces[..n] + [pieces[n]];
    } else {
      assert pieces[..0] == [] && pieces == [pieces[0]];
      assert Join(pieces, d) == "" + pieces[0] == pieces[0];
    }
  }

  lemma {:induction false} JoinSkipsLeadingEmpty(pieces: seq<string>, d: char)
    requires pieces != [] && pieces[0] == ""
    ensures Join(pieces, d) == Join(pieces[1..], d)
  {
    var n := |pieces| - 1;
    if n > 0 {
      JoinSkipsLeadingEmpty(pieces[..n], d);
      assert pieces[..n][1..] == pieces[1..][..n - 1];
    } else {
      assert pieces[..0] == [];
    }
  }

  lemma {:induction false} JoinFieldCount(pieces: seq<string>, d: char)
    requires AllFree(pieces, d)
    ensures |Fields(Join(pieces, d), d)| <= if pieces == [] then 1 else |pieces|
  {
    if pieces == [] {
    } else if pieces[0] == "" {
      JoinSkipsLeadingEmpty(pieces, d);
      JoinFieldCount(pieces[1..], d);
    } else {
      JoinFields(pieces, d);
    }
  }

  /** Splitting gives back the joined list exactly for listable pieces. */
  lemma SplitInvertsJoin(pieces: seq<string>, d: char)
    ensures Split(Join(pieces, d), d) == pieces <==> Listable(pieces, d)
  {
    var s := Join(pieces, d);
    SplitIsFields(s, d);
    if !AllFree(pieces, d) {
      SplitIsFree(s, d);
    } else if pieces == [] {
    } else if pieces[0] != "" {
      JoinFields(pieces, d);
    } else {
      JoinSkipsLeadingEmpty(pieces, d);
      JoinFieldCount(pieces[1..], d);
      if |pieces| == 1 { assert s == ""; }
    }
  }
}
