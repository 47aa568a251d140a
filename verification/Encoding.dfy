/** Percent-encoding and the canonical query of signed object-store requests. A `char` below 256 stands for one byte. */
module Encoding {
  import opened Text
  import opened Sorting

  const HEX := "0123456789ABCDEF"

  predicate Bytes(s: string) {
    forall i :: 0 <= i < |s| ==> s[i] as int < 256
  }

  // ----- percent-encoding -----

  /** The bytes that are never escaped, section 2.3 of RFC 3986. */
  predicate Unreserved(c: char) {
    'A' <= c <= 'Z' || 'a' <= c <= 'z' || '0' <= c <= '9' || c == '-' || c == '_' || c == '.' || c == '~'
  }

  function EncodeByte(c: char): string
    requires c as int < 256
  {
    if Unreserved(c) then [c] else ['%', HEX[c as int / 16], HEX[c as int % 16]]
  }

  function Encode(s: string): string
    requires Bytes(s)
  {
    if s == [] then [] else Encode(s[..|s|-1]) + EncodeByte(s[|s|-1])
  }

  function HexValue(c: char): Option<nat> {
    if '0' <= c <= '9' then Some(c as int - '0' as int)
    else if 'A' <= c <= 'F' then Some(c as int - 'A' as int + 10)
    else if 'a' <= c <= 'f' then Some(c as int - 'a' as int + 10)
    else None
  }

  /** Percent-decoding as in section 2.1 of RFC 3986: each `%` takes two hexadecimal digits of either case. */
  function Decode(s: string): Option<string> {
    if s == [] then Some([])
    else if s[0] != '%' then
      match Decode(s[1..])
      case None => None
      case Some(rest) => Some([s[0]] + rest)
    else if |s| < 3 || HexValue(s[1]).None? || HexValue(s[2]).None? then None
    else
      match Decode(s[3..])
      case None => None
      case Some(rest) => Some([(16 * HexValue(s[1]).value + HexValue(s[2]).value) as char] + rest)
  }

  /** `awsURIEncode`, byte by byte. */
  method AwsURIEncode(s: string) returns (out: string)
    requires Bytes(s)
    ensures out == Encode(s)
    ensures Decode(out) == Some(s)
    ensures forall i :: 0 <= i < |out| ==> EscapedAt(out, i)
  {
    EscapesExactly(s);
    hide Decode, EscapedAt;
    out := "";
    for i := 0 to |s|
      invariant out == Encode(s[..i])
    {
      var c := s[i];
      assert s[..i + 1][..i] == s[..i];
      if Unreserved(c) {
        out := out + [c];
      } else {
        out := out + ['%', HEX[c as int / 16], HEX[c as int % 16]];
      }
    }
    assert s[..|s|] == s;
    DecodeEncode(s);
  }

  lemma HexDigits(d: nat)
    requires d < 16
    ensures HexValue(HEX[d]) == Some(d) && HEX[d] != '%' && Unreserved(HEX[d])
  {
    assert HEX[d] == "0123456789ABCDEF"[d];
  }

  lemma PlainBytes(c: char)
    requires Unreserved(c)
    ensures c != '%' && c != '/' && c != '&' && c != '='
  {
  }

  lemma DecodeByte(c: char, rest: string)
    requires c as int < 256 && Decode(rest).Some?
    ensures Decode(EncodeByte(c) + rest) == Some([c] + Decode(rest).value)
  {
    var t := EncodeByte(c) + rest;
    if Unreserved(c) {
      PlainBytes(c);
      assert t[1..] == rest;
    } else {
      HexDigits(c as int / 16);
      HexDigits(c as int % 16);
      assert t[3..] == rest;
    }
  }

  lemma {:induction false} DecodeAfter(s: string, rest: string)
    requires Bytes(s) && Decode(rest).Some?
    ensures Decode(Encode(s) + rest) == Some(s + Decode(rest).value)
  {
    hide Decode, EncodeByte;
    if s == [] {
      assert Encode(s) + rest == rest && s + Decode(rest).value == Decode(rest).value;
    } else {
      var before, c := s[..|s|-1], s[|s|-1];
      DecodeByte(c, rest);
      DecodeAfter(before, EncodeByte(c) + rest);
      assert Encode(s) + rest == Encode(before) + (EncodeByte(c) + rest);
      assert s + Decode(rest).value == before + ([c] + Decode(rest).value);
    }
  }

  /** The decoder undoes the encoder on every byte string, so no two byte strings share an encoding. */
  lemma DecodeEncode(s: string)
    requires Bytes(s)
    ensures Decode(Encode(s)) == Some(s)
  {
    assert Decode([]) == Some([]);
    DecodeAfter(s, []);
    assert Encode(s) + [] == Encode(s) && s + [] == s;
  }

  lemma EncodeInjective(s: string, t: string)
    requires Bytes(s) && Bytes(t) && Encode(s) == Encode(t)
    ensures s == t
  {
    DecodeEncode(s);
    DecodeEncode(t);
  }

  /** An encoding consists of unreserved bytes and percent signs, so it never holds a delimiter. */
  lemma {:induction false} EncodeSafe(s: string)
    requires Bytes(s)
    ensures forall c :: c in Encode(s) ==> Unreserved(c) || c == '%'
    ensures '/' !in Encode(s) && '&' !in Encode(s) && '=' !in Encode(s)
  {
    if s != [] {
      EncodeSafe(s[..|s|-1]);
      var c := s[|s|-1];
      if !Unreserved(c) {
        HexDigits(c as int / 16);
        HexDigits(c as int % 16);
      }
      forall x | x in EncodeByte(c) ensures Unreserved(x) || x == '%' {
      }
    }
    forall x | x in Encode(s) ensures x != '/' && x != '&' && x != '=' {
      if Unreserved(x) {
        PlainBytes(x);
      }
    }
  }

  /**
   * At place i of an encoding stands a letter, a digit or one of four marks, or an escape with two capital hexadecimal
   * digits, and never an escape of a byte that needs none.
   */
  predicate EscapedAt(e: string, i: int)
    requires 0 <= i < |e|
  {
    if e[i] == '%' then
      && i + 2 < |e|
      && ('0' <= e[i+1] <= '9' || 'A' <= e[i+1] <= 'F') && ('0' <= e[i+2] <= '9' || 'A' <= e[i+2] <= 'F')
      && var c := 16 * CapitalHex(e[i+1]) + CapitalHex(e[i+2]);
         && !('A' as int <= c <= 'Z' as int) && !('a' as int <= c <= 'z' as int) && !('0' as int <= c <= '9' as int)
         && c != '-' as int && c != '_' as int && c != '.' as int && c != '~' as int
    else
      || 'A' <= e[i] <= 'Z' || 'a' <= e[i] <= 'z' || '0' <= e[i] <= '9'
      || e[i] == '-' || e[i] == '_' || e[i] == '.' || e[i] == '~'
  }

  function CapitalHex(c: char): int {
    if c <= '9' then c as int - '0' as int else c as int - 'A' as int + 10
  }

  lemma EscapedByte(c: char)
    requires c as int < 256
    ensures forall i :: 0 <= i < |EncodeByte(c)| ==> EscapedAt(EncodeByte(c), i)
  {
    if !Unreserved(c) {
      var hi, lo := c as int / 16, c as int % 16;
      CapitalDigit(hi);
      CapitalDigit(lo);
      assert c as int == 16 * hi + lo;
    }
  }

  lemma CapitalDigit(d: nat)
    requires d < 16
    ensures ('0' <= HEX[d] <= '9' || 'A' <= HEX[d] <= 'F') && CapitalHex(HEX[d]) == d
  {
    assert HEX[d] == "0123456789ABCDEF"[d];
  }

  lemma EscapedShift(a: string, b: string, i: nat)
    requires i < |b| && EscapedAt(b, i)
    ensures EscapedAt(a + b, |a| + i)
  {
  }

  lemma EscapedPrefix(a: string, b: string, i: nat)
    requires i < |a| && EscapedAt(a, i)
    ensures EscapedAt(a + b, i)
  {
  }

  /** An encoding escapes what must be escaped and nothing else, in capitals: with DecodeEncode this determines it. */
  lemma {:induction false} EscapesExactly(s: string)
    requires Bytes(s)
    ensures forall i :: 0 <= i < |Encode(s)| ==> EscapedAt(Encode(s), i)
  {
    if s != [] {
      var a, b := Encode(s[..|s|-1]), EncodeByte(s[|s|-1]);
      EscapesExactly(s[..|s|-1]);
      EscapedByte(s[|s|-1]);
      hide EscapedAt, EncodeByte;
      forall i | 0 <= i < |a + b| ensures EscapedAt(a + b, i) {
        if i < |a| {
          EscapedPrefix(a, b, i);
        } else {
          EscapedShift(a, b, i - |a|);
          assert |a| + (i - |a|) == i;
        }
      }
    }
  }

  // ----- object keys -----

  /** `strings.Split` at a one-byte separator: always at least one piece. */
  function Split(s: string, sep: char): (r: seq<string>)
    ensures r != []
  {
    if s == [] then [""]
    else
      var rest := Split(s[1..], sep);
      if s[0] == sep then [""] + rest else [[s[0]] + rest[0]] + rest[1..]
  }

  lemma {:induction false} SplitPieces(s: string, sep: char)
    ensures AllFree(Split(s, sep), sep)
    ensures Join(Split(s, sep), sep) == s
  {
    if s != [] {
      SplitPieces(s[1..], sep);
      var rest, r := Split(s[1..], sep), Split(s, sep);
      if s[0] == sep {
        assert r[1..] == rest;
        assert s == [sep] + s[1..];
      } else {
        assert r[1..] == rest[1..];
        assert s == [s[0]] + s[1..];
        if |rest| > 1 {
          assert Join(r, sep) == ([s[0]] + rest[0]) + [sep] + Join(rest[1..], sep);
          assert Join(rest, sep) == rest[0] + [sep] + Join(rest[1..], sep);
        }
      }
    }
  }

  lemma SplitUndoesJoin(parts: seq<string>, sep: char)
    requires parts != [] && AllFree(parts, sep)
    ensures Split(Join(parts, sep), sep) == parts
  {
    SplitPieces(Join(parts, sep), sep);
    JoinInjective(Split(Join(parts, sep), sep), parts, sep);
  }

  ghost predicate AllBytes(parts: seq<string>) {
    forall i :: 0 <= i < |parts| ==> Bytes(parts[i])
  }

  lemma {:induction false} SplitBytes(s: string, sep: char)
    requires Bytes(s)
    ensures AllBytes(Split(s, sep))
  {
    if s != [] {
      SplitBytes(s[1..], sep);
      var rest, r := Split(s[1..], sep), Split(s, sep);
      assert Bytes(rest[0]) && s[0] as int < 256;
      assert s[0] != sep ==> Bytes(r[0]);
    }
  }

  ghost function EncodeAll(parts: seq<string>): (r: seq<string>)
    requires AllBytes(parts)
    ensures |r| == |parts|
  {
    seq(|parts|, i requires 0 <= i < |parts| => Encode(parts[i]))
  }

  /**
   * `s3EscapeKey`: every segment is encoded and the slashes stay. The escaped key has the encoded segments of the
   * key as its segments, and decoding them gives the key back.
   */
  method S3EscapeKey(key: string) returns (escaped: string)
    requires Bytes(key)
    ensures |Split(escaped, '/')| == |Split(key, '/')|
    ensures forall i :: 0 <= i < |Split(key, '/')| ==> Decode(Split(escaped, '/')[i]) == Some(Split(key, '/')[i])
    ensures forall c :: c in escaped ==> Unreserved(c) || c == '%' || c == '/'
  {
    hide Split, Decode, Encode, Bytes, Join;
    var segs := Split(key, '/');
    ghost var was := segs;
    SplitBytes(key, '/');
    for i := 0 to |segs|
      invariant |segs| == |was|
      invariant forall k :: 0 <= k < i ==> segs[k] == EncodeAll(was)[k]
      invariant forall k :: i <= k < |segs| ==> segs[k] == was[k]
    {
      assert Bytes(was[i]);
      var e := AwsURIEncode(segs[i]);
      segs := segs[i := e];
    }
    assert segs == EncodeAll(was);
    escaped := Join(segs, '/');
    EncodedSegments(was);
    SplitUndoesJoin(segs, '/');
    JoinedFrom(segs, '/');
    forall i | 0 <= i < |was| ensures Decode(segs[i]) == Some(was[i]) {
      assert Bytes(was[i]);
      DecodeEncode(was[i]);
    }
  }

  lemma EncodedSegments(parts: seq<string>)
    requires AllBytes(parts)
    ensures AllFree(EncodeAll(parts), '/')
    ensures forall i, c :: 0 <= i < |parts| && c in EncodeAll(parts)[i] ==> Unreserved(c) || c == '%'
  {
    forall i | 0 <= i < |parts|
      ensures '/' !in EncodeAll(parts)[i] && forall c :: c in EncodeAll(parts)[i] ==> Unreserved(c) || c == '%'
    {
      hide Encode;
      assert Bytes(parts[i]);
      EncodeSafe(parts[i]);
    }
  }

  lemma {:induction false} JoinedFrom(parts: seq<string>, sep: char)
    ensures forall c :: c in Join(parts, sep) ==> c == sep || exists i :: 0 <= i < |parts| && c in parts[i]
  {
    if |parts| > 1 {
      JoinedFrom(parts[1..], sep);
      var t := Join(parts, sep);
      assert t == parts[0] + [sep] + Join(parts[1..], sep);
      forall c | c in t ensures c == sep || exists i :: 0 <= i < |parts| && c in parts[i] {
        if c in Join(parts[1..], sep) && c != sep {
          var i :| 0 <= i < |parts| - 1 && c in parts[1..][i];
          assert c in parts[i + 1];
        }
      }
    }
  }

  // ----- the canonical query -----

  predicate QueryBytes(q: map<string, seq<string>>) {
    forall k :: k in q ==> Bytes(k) && forall i :: 0 <= i < |q[k]| ==> Bytes(q[k][i])
  }

  /** How often a query gives a value to a key. */
  function Times(q: map<string, seq<string>>, k: string, v: string): nat {
    if k in q then multiset(q[k])[v] else 0
  }

  function ForKey(k: string, values: seq<string>): (r: seq<(string, string)>)
    ensures |r| == |values|
  {
    seq(|values|, i requires 0 <= i < |values| => (k, values[i]))
  }

  /** The pairs of a query, keys ascending and the values of a key ascending. */
  function PairsOf(q: map<string, seq<string>>, keys: seq<string>): seq<(string, string)>
    requires forall k :: k in keys ==> k in q
  {
    if keys == [] then [] else PairsOf(q, keys[..|keys|-1]) + ForKey(keys[|keys|-1], SortTexts(q[keys[|keys|-1]]))
  }

  predicate PairBytes(pairs: seq<(string, string)>) {
    forall i :: 0 <= i < |pairs| ==> Bytes(pairs[i].0) && Bytes(pairs[i].1)
  }

  function Printed(pairs: seq<(string, string)>): (r: seq<string>)
    requires PairBytes(pairs)
    ensures |r| == |pairs|
  {
    seq(|pairs|, i requires 0 <= i < |pairs| => Encode(pairs[i].0) + ['='] + Encode(pairs[i].1))
  }

  function Arranged(q: map<string, seq<string>>): seq<(string, string)> {
    SortedKeysComplete(q.Keys);
    PairsOf(q, SortedKeys(q.Keys))
  }

  lemma {:induction false} PairsBytes(q: map<string, seq<string>>, keys: seq<string>)
    requires QueryBytes(q) && forall k :: k in keys ==> k in q
    ensures PairBytes(PairsOf(q, keys))
  {
    hide Bytes, SortTexts;
    if keys != [] {
      var k := keys[|keys|-1];
      PairsBytes(q, keys[..|keys|-1]);
      SortTextsTells(q[k], q[k]);
      var s := SortTexts(q[k]);
      forall i | 0 <= i < |s| ensures Bytes(s[i]) {
        assert s[i] in multiset(s);
        assert s[i] in q[k];
      }
    }
  }

  function Canonical(q: map<string, seq<string>>): string
    requires QueryBytes(q)
  {
    SortedKeysComplete(q.Keys);
    PairsBytes(q, SortedKeys(q.Keys));
    Join(Printed(Arranged(q)), '&')
  }

  lemma OneMorePair(done: seq<(string, string)>, k: string, v: string)
    requires PairBytes(done) && Bytes(k) && Bytes(v)
    ensures PairBytes(done + [(k, v)])
    ensures Join(Printed(done + [(k, v)]), '&') ==
            (if done == [] then "" else Join(Printed(done), '&') + "&") + Encode(k) + "=" + Encode(v)
  {
    hide Join, Encode, Bytes;
    var x := Encode(k) + ['='] + Encode(v);
    assert Printed(done + [(k, v)]) == Printed(done) + [x];
    JoinSnoc(Printed(done), x, '&');
    hide Printed;
    var front := if done == [] then "" else Join(Printed(done), '&') + "&";
    assert front + x == front + Encode(k) + "=" + Encode(v);
  }

  /** Writes the pairs of one key behind what is written. */
  method WriteKey(out: string, first: bool, k: string, values: seq<string>, ghost before: seq<(string, string)>)
    returns (out': string, first': bool)
    requires Bytes(k) && AllBytes(values) && PairBytes(before)
    requires out == Join(Printed(before), '&') && (first <==> before == [])
    ensures PairBytes(before + ForKey(k, values))
    ensures out' == Join(Printed(before + ForKey(k, values)), '&') && (first' <==> before + ForKey(k, values) == [])
  {
    hide Join, Encode, Bytes, Decode, Printed, PairBytes;
    out', first' := out, first;
    ghost var done := before;
    EmptyPrints();
    for i := 0 to |values|
      invariant done == before + ForKey(k, values)[..i] && PairBytes(done)
      invariant out' == Join(Printed(done), '&') && (first' <==> done == [])
    {
      assert Bytes(values[i]);
      OneMorePair(done, k, values[i]);
      if !first' {
        out' := out' + "&";
      }
      var ek := AwsURIEncode(k);
      var ev := AwsURIEncode(values[i]);
      out' := out' + ek + "=" + ev;
      first' := false;
      assert ForKey(k, values)[..i + 1] == ForKey(k, values)[..i] + [(k, values[i])];
      done := done + [(k, values[i])];
    }
    assert ForKey(k, values)[..|values|] == ForKey(k, values);
  }

  /** `canonicalizeQuery`: sorted keys, sorted values, `k=v` joined by `&`. */
  method CanonicalizeQuery(q: map<string, seq<string>>) returns (out: string)
    requires QueryBytes(q)
    ensures out == Canonical(q)
  {
    var keys := SortedKeys(q.Keys);
    SortedKeysComplete(q.Keys);
    hide SortedKeys, Bytes, Join, Printed, SortTexts;
    PairsBytes(q, keys);
    if |q| == 0 {
      assert q.Keys == {};
      NothingToPrint(q);
      return "";
    }
    out := "";
    var first := true;
    EmptyPrints();
    for i := 0 to |keys|
      invariant PairBytes(PairsOf(q, keys[..i]))
      invariant out == Join(Printed(PairsOf(q, keys[..i])), '&')
      invariant first <==> PairsOf(q, keys[..i]) == []
    {
      var k := keys[i];
      var vals := SortTexts(q[k]);
      SortedBytes(q[k]);
      assert keys[..i + 1][..i] == keys[..i];
      out, first := WriteKey(out, first, k, vals, PairsOf(q, keys[..i]));
    }
    assert keys[..|keys|] == keys;
  }

  lemma EmptyPrints()
    ensures Join(Printed([]), '&') == ""
  {
  }

  lemma NothingToPrint(q: map<string, seq<string>>)
    requires q.Keys == {} && QueryBytes(q)
    ensures Canonical(q) == ""
  {
    assert SortedKeys({}) == [];
  }

  lemma SortedBytes(values: seq<string>)
    requires forall i :: 0 <= i < |values| ==> Bytes(values[i])
    ensures AllBytes(SortTexts(values))
  {
    hide Bytes, SortTexts;
    SortTextsTells(values, values);
    var s := SortTexts(values);
    forall i | 0 <= i < |s| ensures Bytes(s[i]) {
      assert s[i] in multiset(s);
      assert s[i] in values;
    }
  }

  // ----- what a canonical query tells -----

  function ByPair(): ((string, string), (string, string)) -> bool {
    (p: (string, string), q: (string, string)) => if p.0 != q.0 then Compare(p.0, q.0) <= 0 else Compare(p.1, q.1) <= 0
  }

  lemma PairsTie(p: (string, string), q: (string, string))
    requires ByPair()(p, q) && ByPair()(q, p)
    ensures p == q
  {
    CompareFlip(p.0, q.0);
    CompareEqual(p.0, q.0);
    CompareFlip(p.1, q.1);
    CompareEqual(p.1, q.1);
  }

  lemma {:induction false} PairsFromKeys(q: map<string, seq<string>>, keys: seq<string>)
    requires forall k :: k in keys ==> k in q
    ensures forall p :: p in PairsOf(q, keys) ==> p.0 in keys
  {
    if keys != [] {
      assert keys == keys[..|keys|-1] + [keys[|keys|-1]];
      PairsFromKeys(q, keys[..|keys|-1]);
    }
  }

  lemma {:induction false} PairsSorted(q: map<string, seq<string>>, keys: seq<string>)
    requires forall k :: k in keys ==> k in q
    requires SortedBy(keys, ByText()) && Distinct(keys)
    ensures SortedBy(PairsOf(q, keys), ByPair())
  {
    if keys != [] {
      var before, k := keys[..|keys|-1], keys[|keys|-1];
      PairsSorted(q, before);
      PairsFromKeys(q, before);
      var a, values := PairsOf(q, before), SortTexts(q[k]);
      var b := ForKey(k, values);
      TextOrder();
      SortBySorts(q[k], ByText());
      hide PairsOf, SortBy, Preorder, Ties;
      forall i, j | 0 <= i < j < |b| ensures ByPair()(b[i], b[j]) {
        assert ByText()(values[i], values[j]);
      }
      forall i, j | 0 <= i < |a| && 0 <= j < |b| ensures ByPair()(a[i], b[j]) {
        assert a[i] in a;
        var n :| 0 <= n < |before| && before[n] == a[i].0;
        assert ByText()(keys[n], keys[|keys|-1]) && keys[n] != k;
      }
      ConcatSorted(a, b);
    }
  }

  lemma ConcatSorted(a: seq<(string, string)>, b: seq<(string, string)>)
    requires SortedBy(a, ByPair()) && SortedBy(b, ByPair())
    requires forall i, j :: 0 <= i < |a| && 0 <= j < |b| ==> ByPair()(a[i], b[j])
    ensures SortedBy(a + b, ByPair())
  {
    hide ByPair;
  }

  lemma {:induction false} ForKeyTimes(k: string, values: seq<string>, p: (string, string))
    ensures multiset(ForKey(k, values))[p] == if p.0 == k then multiset(values)[p.1] else 0
  {
    if values == [] {
      assert ForKey(k, values) == [];
    } else {
      var before, v := values[..|values|-1], values[|values|-1];
      ForKeyTimes(k, before, p);
      assert values == before + [v];
      assert ForKey(k, values) == ForKey(k, before) + [(k, v)];
    }
  }

  lemma {:induction false} PairsTimes(q: map<string, seq<string>>, keys: seq<string>, p: (string, string))
    requires (forall k :: k in keys ==> k in q) && Distinct(keys)
    ensures multiset(PairsOf(q, keys))[p] == if p.0 in keys then Times(q, p.0, p.1) else 0
  {
    if keys != [] {
      var before, k := keys[..|keys|-1], keys[|keys|-1];
      assert keys == before + [k];
      PairsTimes(q, before, p);
      ForKeyTimes(k, SortTexts(q[k]), p);
      SortTextsTells(q[k], q[k]);
      hide SortTexts;
    }
  }

  lemma ArrangedTells(q: map<string, seq<string>>, p: (string, string))
    ensures multiset(Arranged(q))[p] == Times(q, p.0, p.1)
    ensures SortedBy(Arranged(q), ByPair())
  {
    SortedKeysComplete(q.Keys);
    SortedKeysSorted(q.Keys);
    PairsTimes(q, SortedKeys(q.Keys), p);
    PairsSorted(q, SortedKeys(q.Keys));
  }

  /** The pairs ascend by name, and those of one name by value; each is there as often as it was given. */
  lemma ArrangedAscends(q: map<string, seq<string>>)
    ensures forall i, j :: 0 <= i < j < |Arranged(q)| ==>
              var x, y := Arranged(q)[i], Arranged(q)[j];
              Ascends(x.0, y.0) && (x.0 == y.0 ==> Ascends(x.1, y.1))
    ensures forall k, v :: multiset(Arranged(q))[(k, v)] == if k in q then multiset(q[k])[v] else 0
  {
    ArrangedTells(q, ("", ""));
    hide Arranged, Ascends;
    forall i, j | 0 <= i < j < |Arranged(q)|
      ensures Ascends(Arranged(q)[i].0, Arranged(q)[j].0)
      ensures Arranged(q)[i].0 == Arranged(q)[j].0 ==> Ascends(Arranged(q)[i].1, Arranged(q)[j].1)
    {
      var x, y := Arranged(q)[i], Arranged(q)[j];
      assert ByPair()(x, y);
      CompareAscends(x.0, y.0);
      CompareAscends(x.1, y.1);
      CompareEqual(x.0, y.0);
    }
    forall k, v ensures multiset(Arranged(q))[(k, v)] == if k in q then multiset(q[k])[v] else 0 {
      ArrangedTells(q, (k, v));
    }
  }

  /** The canonical query is the arranged pairs, each with its encoded name and value, between ampersands. */
  lemma CanonicalPrints(q: map<string, seq<string>>) returns (texts: seq<string>)
    requires QueryBytes(q)
    ensures |texts| == |Arranged(q)| && Canonical(q) == Join(texts, '&')
    ensures forall i :: 0 <= i < |texts| ==>
              var p := Arranged(q)[i];
              Bytes(p.0) && Bytes(p.1) && texts[i] == Encode(p.0) + "=" + Encode(p.1)
  {
    SortedKeysComplete(q.Keys);
    PairsBytes(q, SortedKeys(q.Keys));
    hide Encode, SortTexts, SortedKeys, Join;
    texts := Printed(Arranged(q));
  }

  lemma SameTimesSameArrangement(q: map<string, seq<string>>, r: map<string, seq<string>>)
    requires forall k, v :: Times(q, k, v) == Times(r, k, v)
    ensures Arranged(q) == Arranged(r)
  {
    var a, b := Arranged(q), Arranged(r);
    ArrangedTells(q, ("", ""));
    ArrangedTells(r, ("", ""));
    forall p ensures multiset(a)[p] == multiset(b)[p] {
      ArrangedTells(q, p);
      ArrangedTells(r, p);
      assert Times(q, p.0, p.1) == Times(r, p.0, p.1);
    }
    hide Arranged;
    forall x, y | ByPair()(x, y) && ByPair()(y, x) ensures x == y {
      PairsTie(x, y);
    }
    SortedArrangementUnique(a, b, ByPair());
  }

  lemma PrintedTells(a: seq<(string, string)>, b: seq<(string, string)>)
    requires PairBytes(a) && PairBytes(b) && Printed(a) == Printed(b)
    ensures a == b
  {
    assert |a| == |Printed(a)| == |b|;
    forall i | 0 <= i < |a| ensures a[i] == b[i] {
      assert Printed(a)[i] == Printed(b)[i];
      hide Encode;
      EncodeSafe(a[i].0);
      EncodeSafe(b[i].0);
      FirstPieceTells(Encode(a[i].0), Encode(a[i].1), Encode(b[i].0), Encode(b[i].1), '=');
      EncodeInjective(a[i].0, b[i].0);
      EncodeInjective(a[i].1, b[i].1);
    }
  }

  lemma PrintedFree(a: seq<(string, string)>)
    requires PairBytes(a)
    ensures AllFree(Printed(a), '&')
    ensures a != [] ==> Join(Printed(a), '&') != ""
  {
    hide Encode;
    forall i | 0 <= i < |a| ensures '&' !in Printed(a)[i] && |Printed(a)[i]| > 0 {
      EncodeSafe(a[i].0);
      EncodeSafe(a[i].1);
    }
  }

  /** Two queries print alike exactly when they give every key the same values equally often, in whatever order. */
  lemma CanonicalTells(q: map<string, seq<string>>, r: map<string, seq<string>>)
    requires QueryBytes(q) && QueryBytes(r)
    ensures Canonical(q) == Canonical(r) <==> forall k, v :: Times(q, k, v) == Times(r, k, v)
  {
    SortedKeysComplete(q.Keys);
    SortedKeysComplete(r.Keys);
    PairsBytes(q, SortedKeys(q.Keys));
    PairsBytes(r, SortedKeys(r.Keys));
    var a, b := Arranged(q), Arranged(r);
    PrintedFree(a);
    PrintedFree(b);
    EmptyPrints();
    if Canonical(q) == Canonical(r) {
      hide Arranged, Join, Printed, QueryBytes, Times;
      if a != [] && b != [] {
        JoinInjective(Printed(a), Printed(b), '&');
        PrintedTells(a, b);
      }
      assert a == b;
      forall k, v ensures Times(q, k, v) == Times(r, k, v) {
        ArrangedTells(q, (k, v));
        ArrangedTells(r, (k, v));
      }
    }
    if forall k, v :: Times(q, k, v) == Times(r, k, v) {
      SameTimesSameArrangement(q, r);
    }
  }

  // ----- ordering before or after encoding -----

  /** Two bytes whose encodings stand the other way round: the greater one is escaped, the smaller one is not. */
  predicate SwappedBytes(x: char, y: char) {
    (Unreserved(x) && !Unreserved(y) && x < y) || (Unreserved(y) && !Unreserved(x) && y < x)
  }

  /** At the first byte where they differ, both still having one, the encodings stand the other way round. */
  predicate Swapped(s: string, t: string) {
    s != [] && t != [] && if s[0] == t[0] then Swapped(s[1..], t[1..]) else SwappedBytes(s[0], t[0])
  }

  lemma EncodeSnoc(s: string, c: char)
    requires Bytes(s + [c])
    ensures Bytes(s) && c as int < 256 && Encode(s + [c]) == Encode(s) + EncodeByte(c)
  {
    var t := s + [c];
    assert t[..|t|-1] == s && t[|t|-1] == c;
    assert forall i :: 0 <= i < |s| ==> s[i] == t[i];
  }

  lemma BytesConcat(s: string, t: string)
    ensures Bytes(s + t) <==> Bytes(s) && Bytes(t)
  {
    var u := s + t;
    assert forall i :: 0 <= i < |s| ==> u[i] == s[i];
    assert forall i :: 0 <= i < |t| ==> u[|s| + i] == t[i];
  }

  lemma {:induction false} EncodeConcat(s: string, t: string)
    requires Bytes(s) && Bytes(t)
    ensures Bytes(s + t) && Encode(s + t) == Encode(s) + Encode(t)
  {
    if t == [] {
      assert s + t == s;
    } else {
      var before, last := t[..|t|-1], t[|t|-1..];
      assert t == before + last && last == [t[|t|-1]];
      hide Bytes, Encode, EncodeByte;
      BytesConcat(before, last);
      BytesConcat(s, before);
      BytesConcat(s + before, last);
      assert s + t == (s + before) + last;
      EncodeConcat(s, before);
      EncodeSnoc(before, last[0]);
      EncodeSnoc(s + before, last[0]);
    }
  }

  lemma EncodeHead(s: string)
    requires Bytes(s) && s != []
    ensures Encode(s) == EncodeByte(s[0]) + Encode(s[1..])
  {
    EncodeConcat(s[..1], s[1..]);
    assert s == s[..1] + s[1..] && s[..1] == [s[0]];
    EncodeOne(s[0]);
  }

  lemma EncodeOne(c: char)
    requires c as int < 256
    ensures Encode([c]) == EncodeByte(c)
  {
    assert [c][..0] == [];
  }

  lemma {:induction false} CompareAfter(p: string, a: string, b: string)
    ensures Compare(p + a, p + b) == Compare(a, b)
  {
    if p == [] {
      assert p + a == a && p + b == b;
    } else {
      assert (p + a)[1..] == p[1..] + a && (p + b)[1..] == p[1..] + b;
      CompareAfter(p[1..], a, b);
    }
  }

  lemma HexOrder(a: nat, b: nat)
    requires a < b < 16
    ensures HEX[a] < HEX[b]
  {
  }

  lemma EncodedBytesCompare(x: char, y: char, a: string, b: string)
    requires x as int < 256 && y as int < 256 && x != y
    ensures Compare(EncodeByte(x) + a, EncodeByte(y) + b) ==
            if SwappedBytes(x, y) then (if x < y then 1 else -1) else if x < y then -1 else 1
  {
    var s, t := EncodeByte(x) + a, EncodeByte(y) + b;
    if !Unreserved(x) && !Unreserved(y) {
      var i, j, k, l := x as int / 16, y as int / 16, x as int % 16, y as int % 16;
      assert s[0] == t[0] && s[1..][0] == HEX[i] && t[1..][0] == HEX[j];
      if i == j {
        assert s[1..][1..][0] == HEX[k] && t[1..][1..][0] == HEX[l];
        assert Compare(s, t) == Compare(s[1..], t[1..]) == Compare(s[1..][1..], t[1..][1..]);
        if k < l { HexOrder(k, l); } else { HexOrder(l, k); }
      } else if i < j {
        HexOrder(i, j);
      } else {
        HexOrder(j, i);
      }
    } else {
      assert s[0] == (if Unreserved(x) then x else '%') && t[0] == (if Unreserved(y) then y else '%');
    }
  }

  /** Encoding keeps the order of two byte strings exactly when it does not swap them, and reverses it otherwise. */
  lemma {:induction false} EncodingKeepsOrderExactly(s: string, t: string)
    requires Bytes(s) && Bytes(t)
    ensures Compare(Encode(s), Encode(t)) == Compare(s, t) <==> !Swapped(s, t)
    ensures Swapped(s, t) ==> Compare(s, t) != 0 && Compare(Encode(s), Encode(t)) == -Compare(s, t)
  {
    hide EncodeByte, SwappedBytes;
    if s == [] || t == [] {
      EncodeEmpty(s);
      EncodeEmpty(t);
    } else {
      EncodeHead(s);
      EncodeHead(t);
      hide Encode;
      if s[0] == t[0] {
        CompareAfter(EncodeByte(s[0]), Encode(s[1..]), Encode(t[1..]));
        EncodingKeepsOrderExactly(s[1..], t[1..]);
      } else {
        EncodedBytesCompare(s[0], t[0], Encode(s[1..]), Encode(t[1..]));
      }
    }
  }

  lemma EncodeEmpty(s: string)
    requires Bytes(s)
    ensures Encode(s) == [] <==> s == []
  {
  }

  lemma {:induction false} SwappedEitherWay(s: string, t: string)
    ensures Swapped(s, t) == Swapped(t, s)
    ensures Swapped(s, t) ==> s != t
  {
    if s != [] && t != [] && s[0] == t[0] {
      SwappedEitherWay(s[1..], t[1..]);
    }
  }

  lemma {:induction false} UnreservedNeverSwapped(s: string, t: string)
    requires forall c :: c in s || c in t ==> Unreserved(c)
    ensures !Swapped(s, t)
  {
    if s != [] && t != [] && s[0] == t[0] {
      UnreservedNeverSwapped(s[1..], t[1..]);
    }
  }

  function Encoded(s: string): string {
    if Bytes(s) then Encode(s) else s
  }

  /** The order of the encodings: first of the names, then of the values. */
  function ByEncoding(): ((string, string), (string, string)) -> bool {
    (p: (string, string), q: (string, string)) =>
      if Encoded(p.0) != Encoded(q.0) then Compare(Encoded(p.0), Encoded(q.0)) <= 0
      else Compare(Encoded(p.1), Encoded(q.1)) <= 0
  }

  lemma ByEncodingIsOrder()
    ensures Preorder(ByEncoding())
  {
    hide Encoded;
    var le := ByEncoding();
    forall x, y ensures le(x, y) || le(y, x) {
      CompareFlip(Encoded(x.0), Encoded(y.0));
      CompareFlip(Encoded(x.1), Encoded(y.1));
    }
    forall x, y, z | le(x, y) && le(y, z) ensures le(x, z) {
      ThreeTexts(Encoded(x.0), Encoded(y.0), Encoded(z.0));
      ThreeTexts(Encoded(x.1), Encoded(y.1), Encoded(z.1));
    }
  }

  lemma ThreeTexts(a: string, b: string, c: string)
    ensures Compare(a, b) <= 0 && Compare(b, c) <= 0 ==> Compare(a, c) <= 0 && (a == c ==> a == b && b == c)
  {
    CompareEqual(a, b);
    CompareEqual(b, c);
    CompareEqual(a, c);
    if Compare(a, b) <= 0 && Compare(b, c) <= 0 {
      CompareTransitive(a, b, c);
    }
  }

  lemma EncodingTies(p: (string, string), q: (string, string))
    requires Bytes(p.0) && Bytes(p.1) && Bytes(q.0) && Bytes(q.1)
    requires ByEncoding()(p, q) && ByEncoding()(q, p)
    ensures p == q
  {
    CompareFlip(Encode(p.0), Encode(q.0));
    CompareEqual(Encode(p.0), Encode(q.0));
    CompareFlip(Encode(p.1), Encode(q.1));
    CompareEqual(Encode(p.1), Encode(q.1));
    hide Encode;
    EncodeInjective(p.0, q.0);
    EncodeInjective(p.1, q.1);
  }

  /** Two pairs in raw order are in the order of their encodings exactly when what decides is not swapped. */
  lemma PairKeepsOrder(p: (string, string), q: (string, string))
    requires Bytes(p.0) && Bytes(p.1) && Bytes(q.0) && Bytes(q.1) && ByPair()(p, q)
    ensures ByEncoding()(p, q) <==> if p.0 != q.0 then !Swapped(p.0, q.0) else !Swapped(p.1, q.1)
  {
    hide Encode, Swapped;
    EncodingKeepsOrderExactly(p.0, q.0);
    EncodingKeepsOrderExactly(p.1, q.1);
    CompareEqual(p.0, q.0);
    CompareEqual(Encode(p.0), Encode(q.0));
    CompareFlip(Encode(p.0), Encode(q.0));
    CompareFlip(p.0, q.0);
    CompareEqual(p.1, q.1);
    CompareFlip(Encode(p.1), Encode(q.1));
    CompareFlip(p.1, q.1);
    SwappedEitherWay(p.1, q.1);
    if Encode(p.0) == Encode(q.0) {
      EncodeInjective(p.0, q.0);
    }
  }

  lemma ArrangedBytes(q: map<string, seq<string>>)
    requires QueryBytes(q)
    ensures PairBytes(Arranged(q))
  {
    SortedKeysComplete(q.Keys);
    PairsBytes(q, SortedKeys(q.Keys));
  }

  /** The pairs of a query in the order of their encodings. */
  function Rearranged(q: map<string, seq<string>>): seq<(string, string)> {
    SortBy(Arranged(q), ByEncoding())
  }

  lemma RearrangedBytes(q: map<string, seq<string>>)
    requires QueryBytes(q)
    ensures PairBytes(Rearranged(q))
  {
    ArrangedBytes(q);
    ByEncodingIsOrder();
    SortBySorts(Arranged(q), ByEncoding());
    var a, r := Arranged(q), Rearranged(q);
    hide Arranged, Rearranged, Bytes, Preorder, Ties;
    forall i | 0 <= i < |r| ensures Bytes(r[i].0) && Bytes(r[i].1) {
      assert r[i] in multiset(r);
      assert r[i] in a;
    }
  }

  /** The canonical query that orders the encodings instead of what they encode. */
  function CanonicalByEncoding(q: map<string, seq<string>>): string
    requires QueryBytes(q)
  {
    RearrangedBytes(q);
    Join(Printed(Rearranged(q)), '&')
  }

  /** No two names of the query are swapped by encoding, and no two values of one name. */
  predicate NothingSwapped(q: map<string, seq<string>>) {
    && (forall k, l :: k in q && l in q && q[k] != [] && q[l] != [] ==> !Swapped(k, l))
    && (forall k, v, w :: k in q && v in q[k] && w in q[k] ==> !Swapped(v, w))
  }

  lemma ArrangedMember(q: map<string, seq<string>>, p: (string, string))
    ensures p in Arranged(q) <==> p.0 in q && p.1 in q[p.0]
  {
    ArrangedTells(q, p);
    hide Arranged;
    assert p in Arranged(q) <==> p in multiset(Arranged(q));
    assert p.0 in q ==> (p.1 in q[p.0] <==> p.1 in multiset(q[p.0]));
  }

  lemma KeptOrderMeansNothingSwapped(q: map<string, seq<string>>)
    requires QueryBytes(q) && SortedBy(Arranged(q), ByEncoding())
    ensures NothingSwapped(q)
  {
    ArrangedBytes(q);
    ArrangedTells(q, ("", ""));
    hide Arranged, Bytes, Swapped, ByPair, ByEncoding;
    forall k, l | k in q && l in q && q[k] != [] && q[l] != [] && k != l ensures !Swapped(k, l) {
      PairInOrder(q, (k, q[k][0]), (l, q[l][0]));
    }
    forall k, v, w | k in q && v in q[k] && w in q[k] && v != w ensures !Swapped(v, w) {
      PairInOrder(q, (k, v), (k, w));
    }
    forall k ensures !Swapped(k, k) {
      SwappedEitherWay(k, k);
    }
  }

  lemma PairInOrder(q: map<string, seq<string>>, x: (string, string), y: (string, string))
    requires PairBytes(Arranged(q)) && SortedBy(Arranged(q), ByPair()) && SortedBy(Arranged(q), ByEncoding())
    requires x.0 in q && x.1 in q[x.0] && y.0 in q && y.1 in q[y.0] && x != y
    ensures if x.0 != y.0 then !Swapped(x.0, y.0) else !Swapped(x.1, y.1)
  {
    ArrangedMember(q, x);
    ArrangedMember(q, y);
    var a := Arranged(q);
    hide Arranged, Swapped, Bytes, ByPair, ByEncoding;
    var i, j :| 0 <= i < |a| && 0 <= j < |a| && a[i] == x && a[j] == y;
    SwappedEitherWay(x.0, y.0);
    SwappedEitherWay(x.1, y.1);
    if i < j {
      PairKeepsOrder(x, y);
    } else {
      PairKeepsOrder(y, x);
    }
  }

  lemma NothingSwappedKeepsOrder(q: map<string, seq<string>>)
    requires QueryBytes(q) && NothingSwapped(q)
    ensures SortedBy(Arranged(q), ByEncoding())
  {
    ArrangedBytes(q);
    ArrangedTells(q, ("", ""));
    var a := Arranged(q);
    hide Arranged, Bytes, Swapped, ByPair, ByEncoding;
    forall i, j | 0 <= i < j < |a| ensures ByEncoding()(a[i], a[j]) {
      assert a[i] in a && a[j] in a && ByPair()(a[i], a[j]);
      ArrangedMember(q, a[i]);
      ArrangedMember(q, a[j]);
      PairKeepsOrder(a[i], a[j]);
    }
  }

  lemma SortedStays(q: map<string, seq<string>>)
    requires QueryBytes(q)
    ensures Rearranged(q) == Arranged(q) <==> SortedBy(Arranged(q), ByEncoding())
  {
    var a, r := Arranged(q), Rearranged(q);
    ArrangedBytes(q);
    RearrangedBytes(q);
    ByEncodingIsOrder();
    SortBySorts(a, ByEncoding());
    hide Arranged, Rearranged, Bytes, Preorder, Ties, ByEncoding;
    forall x, y | (x in a || x in r) && (y in a || y in r) && ByEncoding()(x, y) && ByEncoding()(y, x) ensures x == y {
      assert Bytes(x.0) && Bytes(x.1) && Bytes(y.0) && Bytes(y.1);
      EncodingTies(x, y);
    }
    if SortedBy(a, ByEncoding()) {
      SortedArrangementUnique(a, r, ByEncoding());
    }
  }

  /**
   * Ordering names and values before or after encoding them gives the same canonical query exactly when encoding
   * swaps no two names of the query and no two values of one name.
   */
  lemma OrderBeforeOrAfterExactly(q: map<string, seq<string>>)
    requires QueryBytes(q)
    ensures Canonical(q) == CanonicalByEncoding(q) <==> NothingSwapped(q)
  {
    var a, r := Arranged(q), Rearranged(q);
    ArrangedBytes(q);
    RearrangedBytes(q);
    SortedStays(q);
    SortedKeysComplete(q.Keys);
    PrintedFree(a);
    PrintedFree(r);
    EmptyPrints();
    assert Canonical(q) == Join(Printed(a), '&') && CanonicalByEncoding(q) == Join(Printed(r), '&');
    hide Arranged, Rearranged, Join, Printed, QueryBytes, NothingSwapped, Bytes, ByEncoding, Canonical,
        CanonicalByEncoding;
    if Join(Printed(a), '&') == Join(Printed(r), '&') {
      if a != [] && r != [] {
        JoinInjective(Printed(a), Printed(r), '&');
        PrintedTells(a, r);
      }
      assert a == r;
      KeptOrderMeansNothingSwapped(q);
    }
    if NothingSwapped(q) {
      NothingSwappedKeepsOrder(q);
    }
  }

  /** So it does for every query whose names and values need no escape. */
  lemma UnreservedQueriesAgree(q: map<string, seq<string>>)
    requires forall k :: k in q ==> AllUnreserved(k) && forall v :: v in q[k] ==> AllUnreserved(v)
    ensures QueryBytes(q) && Canonical(q) == CanonicalByEncoding(q)
  {
    forall k | k in q ensures Bytes(k) && forall i :: 0 <= i < |q[k]| ==> Bytes(q[k][i]) {
      assert forall i :: 0 <= i < |k| ==> k[i] in k;
      forall i | 0 <= i < |q[k]| ensures Bytes(q[k][i]) {
        var v := q[k][i];
        assert v in q[k];
        assert forall j :: 0 <= j < |v| ==> v[j] in v;
      }
    }
    forall k, l | k in q && l in q ensures !Swapped(k, l) {
      UnreservedNeverSwapped(k, l);
    }
    forall k, v, w | k in q && v in q[k] && w in q[k] ensures !Swapped(v, w) {
      UnreservedNeverSwapped(v, w);
    }
    OrderBeforeOrAfterExactly(q);
  }

  predicate AllUnreserved(s: string) {
    forall c :: c in s ==> Unreserved(c)
  }

  /** And it does not for these two names. */
  lemma RawOrderIsNotEncodedOrder(v: string)
    requires Bytes(v)
    ensures var q := map["0" := [v], ":" := [v]];
            QueryBytes(q) && Canonical(q) != CanonicalByEncoding(q)
  {
    var q := map["0" := [v], ":" := [v]];
    assert "0" in q && ":" in q && Swapped("0", ":");
    OrderBeforeOrAfterExactly(q);
  }
}
