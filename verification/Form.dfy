/** Form variables: `get_var` over `name=value` pairs joined with ampersands. */
module Form {
  import opened Percent
  import opened Records
  import opened Words

  const AMPERSAND := 38
  const EQUALS := 61

  // ---------------------------------------------------------------------
  // What a form means.

  /** Equal up to the case of letters. */
  predicate Same(a: seq<byte>, b: seq<byte>) {
    |a| == |b| && forall i :: 0 <= i < |a| ==> Lower(a[i]) == Lower(b[i])
  }

  /** The end of the first field. */
  function FieldEnd(data: seq<byte>): (e: nat)
    ensures e <= |data| && (e < |data| ==> data[e] == AMPERSAND)
    ensures forall k :: 0 <= k < e ==> data[k] != AMPERSAND
  {
    if data == [] || data[0] == AMPERSAND then 0 else 1 + FieldEnd(data[1..])
  }

  /** The field is the name, an equals sign and something. */
  predicate Names(field: seq<byte>, name: seq<byte>) {
    |name| < |field| && field[|name|] == EQUALS && Same(name, field[..|name|])
  }

  /** The text of the first field with the given name. */
  function Lookup(data: seq<byte>, name: seq<byte>): (v: Option<seq<byte>>)
    decreases |data|
  {
    var e := FieldEnd(data);
    if Names(data[..e], name) then Some(data[|name| + 1..e]) else LookupLater(data, name)
  }

  function LookupLater(data: seq<byte>, name: seq<byte>): (v: Option<seq<byte>>)
    decreases |data|, 0
  {
    var e := FieldEnd(data);
    if e < |data| then Lookup(data[e + 1..], name) else None
  }

  // ---------------------------------------------------------------------
  // How `get_var` looks for it.

  /** The test of the search loop at position `p`. */
  predicate FoundAt(data: seq<byte>, name: seq<byte>, p: nat)
    requires p + |name| < |data|
  {
    && (p == 0 || data[p - 1] == AMPERSAND)
    && data[p + |name|] == EQUALS
    && Same(name, data[p..p + |name|])
  }

  function Search(data: seq<byte>, name: seq<byte>, p: nat): (v: Option<seq<byte>>)
    decreases |data| - p
  {
    if p + |name| >= |data| then None
    else if FoundAt(data, name, p) then
      var rest := data[p + |name| + 1..];
      Some(rest[..FieldEnd(rest)])
    else Search(data, name, p + 1)
  }

  /** At the start of a field the two tests agree, and read the same value. */
  lemma FoundIsNamed(data: seq<byte>, name: seq<byte>, p: nat)
    requires AMPERSAND !in name && p + |name| < |data| && (p == 0 || data[p - 1] == AMPERSAND)
    ensures var d := data[p..];
            var e := FieldEnd(d);
            && (FoundAt(data, name, p) <==> Names(d[..e], name))
            && (FoundAt(data, name, p) ==>
                  var rest := data[p + |name| + 1..];
                  |name| < e && rest[..FieldEnd(rest)] == d[|name| + 1..e])
  {
    hide FieldEnd;
    var d := data[p..];
    var e := FieldEnd(d);
    assert data[p..p + |name|] == d[..|name|] && data[p + |name|] == d[|name|];
    if FoundAt(data, name, p) {
      NoAmpersand(name, d[..|name|]);
      assert forall k :: 0 <= k < |name| ==> d[k] == d[..|name|][k];
      assert |name| < e;
      assert d[..e][..|name|] == d[..|name|] && d[..e][|name|] == d[|name|];
      FieldEndAfter(d, |name| + 1);
      assert data[p + |name| + 1..] == d[|name| + 1..];
    } else if |name| < e {
      assert d[..e][..|name|] == d[..|name|] && d[..e][|name|] == d[|name|];
    }
  }

  lemma NoAmpersand(name: seq<byte>, s: seq<byte>)
    requires Same(name, s) && AMPERSAND !in name
    ensures forall i :: 0 <= i < |s| ==> s[i] != AMPERSAND
  {
    forall i | 0 <= i < |s| ensures s[i] != AMPERSAND {
      assert name[i] in name;
    }
  }

  lemma {:induction false} FieldEndAfter(d: seq<byte>, k: nat)
    requires k <= FieldEnd(d)
    ensures FieldEnd(d[k..]) == FieldEnd(d) - k
  {
    if k == 0 {
      assert d[0..] == d;
    } else {
      FieldEndAfter(d[1..], k - 1);
      assert d[1..][k - 1..] == d[k..];
    }
  }

  /** The search, which tries every position, is the lookup, which goes field by field. */
  lemma {:induction false} SearchIsLookup(data: seq<byte>, name: seq<byte>, start: nat)
    requires AMPERSAND !in name && start <= |data| && (start == 0 || data[start - 1] == AMPERSAND)
    ensures Search(data, name, start) == Lookup(data[start..], name)
    decreases |data| - start, 1
  {
    hide Names, FoundAt, LookupLater;
    if start + |name| >= |data| {
      LookupShort(data[start..], name, 0);
    } else {
      FoundIsNamed(data, name, start);
      if !FoundAt(data, name, start) { SearchIsLater(data, name, start, start); }
    }
  }

  /** Between the start of a field and its end the search finds nothing. */
  lemma {:induction false} SearchIsLater(data: seq<byte>, name: seq<byte>, start: nat, p: nat)
    requires AMPERSAND !in name && start <= p && p + |name| < |data|
    requires forall k :: start <= k < p ==> data[k] != AMPERSAND
    ensures Search(data, name, p + 1) == LookupLater(data[start..], name)
    decreases |data| - p, 0
  {
    hide Names, FoundAt, Lookup;
    var d := data[start..];
    FieldStarts(data, start, p);
    if data[p] == AMPERSAND {
      SearchIsLookup(data, name, p + 1);
      assert d[p - start + 1..] == data[p + 1..];
    } else if p + 1 + |name| >= |data| {
      LookupShort(d, name, p + 1 - start);
    } else {
      NotFound(data, name, p + 1);
      SearchIsLater(data, name, start, p + 1);
    }
  }

  lemma FieldStarts(data: seq<byte>, start: nat, p: nat)
    requires start <= p < |data| && forall k :: start <= k < p ==> data[k] != AMPERSAND
    ensures FieldEnd(data[start..]) == p - start || (data[p] != AMPERSAND && FieldEnd(data[start..]) > p - start)
    ensures data[p] == AMPERSAND ==> FieldEnd(data[start..]) == p - start
  {
    var d := data[start..];
    assert d[p - start] == data[p];
    assert forall k :: 0 <= k < p - start ==> d[k] == data[start + k];
  }

  lemma NotFound(data: seq<byte>, name: seq<byte>, p: nat)
    requires 0 < p && p + |name| < |data| && data[p - 1] != AMPERSAND
    ensures !FoundAt(data, name, p)
  {
  }

  /** Nothing is found once fewer octets are left than the name has. */
  lemma {:induction false} LookupShort(d: seq<byte>, name: seq<byte>, k: nat)
    requires k <= FieldEnd(d) && |d| - k <= |name|
    ensures k == 0 ==> Lookup(d, name) == None
    ensures LookupLater(d, name) == None
    decreases |d|
  {
    var e := FieldEnd(d);
    if e < |d| { LookupShort(d[e + 1..], name, 0); }
  }

  // ---------------------------------------------------------------------
  // Printing a form and reading it back.

  datatype Field = Field(name: seq<byte>, value: seq<byte>)

  predicate Unreserved(name: seq<byte>) { AMPERSAND !in name && EQUALS !in name }

  function PrintField(f: Field): (s: seq<byte>) { f.name + [EQUALS] + Encode(f.value) }

  function Print(fs: seq<Field>): (s: seq<byte>) {
    if fs == [] then []
    else if |fs| == 1 then PrintField(fs[0])
    else PrintField(fs[0]) + [AMPERSAND] + Print(fs[1..])
  }

  function First(fs: seq<Field>, name: seq<byte>): (v: Option<seq<byte>>)
    ensures v.Some? ==> exists i :: 0 <= i < |fs| && Same(name, fs[i].name) && v.value == fs[i].value
                                 && forall k :: 0 <= k < i ==> !Same(name, fs[k].name)
    ensures v.None? ==> forall i :: 0 <= i < |fs| ==> !Same(name, fs[i].name)
  {
    if fs == [] then None
    else if Same(name, fs[0].name) then Some(fs[0].value)
    else
      var v := First(fs[1..], name);
      assert v.Some? ==> forall i :: 0 <= i < |fs[1..]| ==> fs[1..][i] == fs[i + 1];
      v
  }

  lemma {:induction false} EncodeIsPlain(s: seq<byte>)
    ensures forall k :: 0 <= k < |Encode(s)| ==> Encode(s)[k] != AMPERSAND && Encode(s)[k] != EQUALS
  {
    if s != [] {
      CodeIsPlain(s[0]);
      EncodeIsPlain(s[1..]);
    }
  }

  lemma CodeIsPlain(c: byte)
    ensures forall k :: 0 <= k < |Code(c)| ==> Code(c)[k] != AMPERSAND && Code(c)[k] != EQUALS
  {
  }

  lemma {:induction false} FieldEndOf(field: seq<byte>, tail: seq<byte>)
    requires forall k :: 0 <= k < |field| ==> field[k] != AMPERSAND
    requires tail == [] || tail[0] == AMPERSAND
    ensures FieldEnd(field + tail) == |field|
  {
    var data := field + tail;
    if field == [] {
      assert data == tail;
    } else {
      assert data[1..] == field[1..] + tail && data[0] == field[0];
      FieldEndOf(field[1..], tail);
    }
  }

  /** A printed field has the name it was printed with and no other. */
  lemma PrintedField(f: Field, name: seq<byte>)
    requires Unreserved(f.name)
    ensures forall k :: 0 <= k < |PrintField(f)| ==> PrintField(f)[k] != AMPERSAND
    ensures Names(PrintField(f), name) <==> Same(name, f.name)
    ensures Same(name, f.name) ==>
              |name| < |PrintField(f)| && PrintField(f)[|name| + 1..] == Encode(f.value)
  {
    hide Encode;
    EncodeIsPlain(f.value);
    var s := PrintField(f);
    assert forall k :: 0 <= k < |f.name| ==> f.name[k] in f.name;
    if |name| == |f.name| { assert s[..|name|] == f.name; }
  }

  lemma LookupFirst(field: seq<byte>, tail: seq<byte>, name: seq<byte>)
    requires forall k :: 0 <= k < |field| ==> field[k] != AMPERSAND
    requires tail == [] || tail[0] == AMPERSAND
    ensures Lookup(field + tail, name) ==
            if Names(field, name) then Some(field[|name| + 1..])
            else if tail == [] then None
            else Lookup(tail[1..], name)
  {
    hide Names, Same;
    FieldEndOf(field, tail);
    var data := field + tail;
    assert data[..|field|] == field;
    if Names(field, name) {
      NamedLength(field, name);
      assert data[|name| + 1..|field|] == field[|name| + 1..];
    } else if tail != [] {
      assert data[|field| + 1..] == tail[1..];
    }
  }

  lemma NamedLength(field: seq<byte>, name: seq<byte>)
    requires Names(field, name)
    ensures |name| < |field|
  {
  }

  /** Looking up a name in a printed form gives the value of the first field of that name. */
  lemma {:induction false} LookupPrinted(fs: seq<Field>, name: seq<byte>)
    requires forall f :: f in fs ==> Unreserved(f.name)
    ensures Lookup(Print(fs), name) == match First(fs, name) case None => None case Some(v) => Some(Encode(v))
  {
    hide Names, Same, PrintField, Encode, Unreserved, Lookup;
    if fs == [] {
      NothingNamed(name);
    } else {
      var field, rest := PrintField(fs[0]), Print(fs[1..]);
      PrintedField(fs[0], name);
      LookupPrinted(fs[1..], name);
      if |fs| == 1 {
        LookupFirst(field, [], name);
        assert field + [] == field;
      } else {
        LookupFirst(field, [AMPERSAND] + rest, name);
        assert ([AMPERSAND] + rest)[1..] == rest;
        assert field + ([AMPERSAND] + rest) == field + [AMPERSAND] + rest;
      }
    }
  }

  lemma NothingNamed(name: seq<byte>)
    ensures Lookup([], name) == None
  {
  }

  // ---------------------------------------------------------------------
  // `get_var`.

  /** What `get_var` answers, given what its search finds. */
  function Answer(found: Option<seq<byte>>, dstLen: nat): (len: int) {
    if dstLen == 0 then -2
    else match found
      case None => -1
      case Some(v) => var n := |Decode(v, true)|; if n < dstLen then n else -2
  }

  /** Form lookup inverts form printing: the answer is the length of the first value of that
      name, -1 when there is none, and -2 exactly when it does not fit. */
  lemma AnswerPrinted(fs: seq<Field>, name: seq<byte>, dstLen: nat)
    requires (forall f :: f in fs ==> Unreserved(f.name)) && AMPERSAND !in name && dstLen > 0
    ensures var found := Search(Print(fs), name, 0);
            match First(fs, name)
            case None => found == None && Answer(found, dstLen) == -1
            case Some(v) =>
              && found.Some? && Decode(found.value, true) == v
              && Answer(found, dstLen) == if |v| < dstLen then |v| else -2
  {
    hide Lookup, Search, Print, First, Encode, Decode, Unreserved;
    var data := Print(fs);
    assert data[0..] == data;
    SearchIsLookup(data, name, 0);
    LookupPrinted(fs, name);
    if First(fs, name).Some? { RoundTrip(First(fs, name).value, true); }
  }

  /** `mg_strncasecmp` over the whole of the name. */
  method CompareName(name: seq<byte>, data: array<byte>, p: nat) returns (diff: int)
    requires 0 !in name && p + |name| <= data.Length
    ensures diff == 0 <==> Same(name, data[p..p + |name|])
  {
    diff := 0;
    ghost var s := data[p..p + |name|];
    var i := 0;
    while i < |name| && diff == 0
      invariant 0 <= i <= |name|
      invariant diff == 0 ==> forall k :: 0 <= k < i ==> Lower(name[k]) == Lower(s[k])
      invariant diff != 0 ==> !Same(name, s)
    {
      assert s[i] == data[p + i];
      diff := Lower(name[i]) - Lower(data[p + i]);
      i := i + 1;
    }
  }

  /** `memchr` for the end of a value. */
  method FindEnd(data: array<byte>, p: nat, end: nat) returns (s: nat)
    requires p <= end <= data.Length
    ensures p <= s <= end && s - p == FieldEnd(data[p..end])
  {
    s := p;
    while s < end && data[s] != AMPERSAND
      invariant p <= s <= end
      invariant forall k :: p <= k < s ==> data[k] != AMPERSAND
    {
      s := s + 1;
    }
    ghost var d := data[p..end];
    assert forall k :: 0 <= k < end - p ==> d[k] == data[p + k];
  }

  /** The search loop of `get_var`: the bounds of the value found. */
  method FindValue(data: array<byte>, dataLen: nat, name: seq<byte>) returns (found: bool, p: nat, s: nat)
    requires dataLen <= data.Length && 0 !in name
    ensures found ==> p <= s <= dataLen && Search(data[..dataLen], name, 0) == Some(data[p..s])
    ensures !found ==> Search(data[..dataLen], name, 0) == None
  {
    hide FoundAt;
    ghost var text := data[..dataLen];
    found, p, s := false, 0, 0;
    while p + |name| < dataLen
      invariant Search(text, name, p) == Search(text, name, 0)
    {
      found := TestAt(data, dataLen, name, p);
      if found {
        p := p + |name| + 1;
        s := FindEnd(data, p, dataLen);
        Sliced(data[..], p, s, dataLen);
        return;
      }
      p := p + 1;
    }
  }

  lemma Sliced(d: seq<byte>, p: nat, s: nat, end: nat)
    requires p <= s <= end <= |d|
    ensures d[..end][p..] == d[p..end] && d[p..end][..s - p] == d[p..s]
  {
  }

  /** The text `get_var` searches: the destination is emptied first, so a destination that is
      the searched block loses its first octet. */
  ghost function Searched(text: seq<byte>, emptied: bool): (t: seq<byte>) {
    if emptied && text != [] then text[0 := 0] else text
  }

  /** `get_var`. */
  method GetVar(data: array?<byte>, dataLen: nat, name: Option<seq<byte>>, dst: array?<byte>, dstLen: nat)
    returns (len: int)
    requires data != null ==> dataLen <= data.Length
    requires dst != null ==> dstLen <= dst.Length
    requires name.Some? ==> 0 !in name.value
    modifies dst
    ensures dst == null ==> len == -2
    ensures dst != null && (data == null || name == None) ==> len == Answer(None, dstLen)
    ensures dst != null && data != null && name.Some? ==>
      var found := Search(Searched(old(data[..dataLen]), dst == data), name.value, 0);
      && len == Answer(found, dstLen)
      && (len >= 0 ==> dst[..len] == Decode(found.value, true))
    ensures len >= 0 ==> dst != null && len < dstLen && dst[len] == 0
  {
    hide Decode, Search;
    if dst == null || dstLen == 0 {
      len := -2;
    } else if data == null || name == None || dataLen == 0 {
      len := -1;
      dst[0] := 0;
      if name.Some? { SearchNothing(name.value); }
    } else {
      len := -1;
      dst[0] := 0;
      assert data[..dataLen] == Searched(old(data[..dataLen]), dst == data);
      var found, p, s := FindValue(data, dataLen, name.value);
      if found {
        len := DecodeInto(data, p, s - p, dst, dstLen, true);
        if len == -1 { len := -2; }
      }
    }
  }

  lemma SearchNothing(name: seq<byte>)
    ensures Search([], name, 0) == None
  {
  }

  method TestAt(data: array<byte>, dataLen: nat, name: seq<byte>, p: nat) returns (found: bool)
    requires 0 !in name && p + |name| < dataLen <= data.Length
    ensures found == FoundAt(data[..dataLen], name, p)
  {
    found := false;
    ghost var text := data[..dataLen];
    assert text[p..p + |name|] == data[p..p + |name|];
    if (p == 0 || data[p - 1] == AMPERSAND) && data[p + |name|] == EQUALS {
      var diff := CompareName(name, data, p);
      found := diff == 0;
    }
  }

  /** `mg_get_var`: the query string first, and the body when that gives no value. */
  method RequestVar(query: array?<byte>, queryLen: nat, body: array?<byte>, bodyLen: nat,
                    name: seq<byte>, dst: array<byte>) returns (len: int)
    requires query != null ==> queryLen <= query.Length
    requires body != null ==> bodyLen <= body.Length
    requires 0 !in name && dst != body
    modifies dst
    ensures var q := if query == null then None
                     else Search(Searched(old(query[..queryLen]), dst == query), name, 0);
            var b := if body == null then None else Search(body[..bodyLen], name, 0);
            var found := if Answer(q, dst.Length) >= 0 then q else b;
            && len == Answer(found, dst.Length)
            && (len >= 0 ==> dst[..len] == Decode(found.value, true) && dst[len] == 0)
  {
    hide Search, Decode;
    len := GetVar(query, queryLen, Some(name), dst, dst.Length);
    if len < 0 {
      len := GetVar(body, bodyLen, Some(name), dst, dst.Length);
    }
  }
}
