/** Byte-wise text: Go's string order and decimal printing. A `char` stands for one byte. */
module Text {

  datatype Option<+T> = None | Some(value: T)

  datatype Result<+T, +E> = Ok(value: T) | Err(error: E)

  /** `strings.Compare`: lexicographic, a proper prefix sorts first. */
  function Compare(a: string, b: string): int
  {
    if a == [] then (if b == [] then 0 else -1)
    else if b == [] then 1
    else if a[0] < b[0] then -1
    else if b[0] < a[0] then 1
    else Compare(a[1..], b[1..])
  }

  lemma {:induction false} CompareEqual(a: string, b: string)
    ensures Compare(a, b) == 0 <==> a == b
  {
    if a != [] && b != [] && a[0] == b[0] {
      CompareEqual(a[1..], b[1..]);
      assert a == [a[0]] + a[1..] && b == [b[0]] + b[1..];
    }
  }

  lemma {:induction false} CompareFlip(a: string, b: string)
    ensures Compare(a, b) == -Compare(b, a)
    ensures -1 <= Compare(a, b) <= 1
  {
    if a != [] && b != [] && a[0] == b[0] {
      CompareFlip(a[1..], b[1..]);
    }
  }

  lemma {:induction false} CompareTransitive(a: string, b: string, c: string)
    requires Compare(a, b) <= 0 && Compare(b, c) <= 0
    ensures Compare(a, c) <= 0
    ensures Compare(a, c) == 0 ==> Compare(a, b) == 0 && Compare(b, c) == 0
  {
    if a != [] && b != [] && c != [] && a[0] == b[0] == c[0] {
      CompareTransitive(a[1..], b[1..], c[1..]);
    }
  }

  /** a starts b, or at the first place where they differ its byte is the smaller one. */
  ghost predicate Ascends(a: string, b: string) {
    a <= b || exists k :: DiffersFirst(a, b, k) && a[k] < b[k]
  }

  predicate DiffersFirst(a: string, b: string, k: int) {
    0 <= k < |a| && k < |b| && a[k] != b[k] && forall j :: 0 <= j < k ==> a[j] == b[j]
  }

  lemma {:induction false} CompareAscends(a: string, b: string)
    ensures Compare(a, b) <= 0 <==> Ascends(a, b)
  {
    if a == [] {
      assert a <= b;
    } else if b == [] {
    } else if a[0] != b[0] {
      assert DiffersFirst(a, b, 0);
    } else {
      CompareAscends(a[1..], b[1..]);
      AscendsTail(a, b);
    }
  }

  lemma AscendsTail(a: string, b: string)
    requires a != [] && b != [] && a[0] == b[0]
    ensures Ascends(a, b) <==> Ascends(a[1..], b[1..])
  {
    var s, t := a[1..], b[1..];
    assert a == [a[0]] + s && b == [b[0]] + t;
    forall k | DiffersFirst(s, t, k) ensures DiffersFirst(a, b, k + 1) {
      assert forall j :: 0 < j < k + 1 ==> a[j] == s[j-1] && b[j] == t[j-1];
    }
    forall k | DiffersFirst(a, b, k) ensures DiffersFirst(s, t, k - 1) {
      assert k > 0;
      assert forall j :: 0 <= j < k - 1 ==> s[j] == a[j+1] && t[j] == b[j+1];
    }
  }

  /** Field by field comparison of keys with the same number of fields. */
  function CompareFields(a: seq<string>, b: seq<string>): int {
    if a == [] then (if b == [] then 0 else -1)
    else if b == [] then 1
    else if Compare(a[0], b[0]) != 0 then Compare(a[0], b[0])
    else CompareFields(a[1..], b[1..])
  }

  lemma {:induction false} CompareFieldsEqual(a: seq<string>, b: seq<string>)
    ensures CompareFields(a, b) == 0 <==> a == b
  {
    if a != [] && b != [] {
      CompareEqual(a[0], b[0]);
      CompareFieldsEqual(a[1..], b[1..]);
      assert a == [a[0]] + a[1..] && b == [b[0]] + b[1..];
    }
  }

  lemma {:induction false} CompareFieldsFlip(a: seq<string>, b: seq<string>)
    ensures CompareFields(a, b) == -CompareFields(b, a)
  {
    if a != [] && b != [] {
      CompareFlip(a[0], b[0]);
      CompareFieldsFlip(a[1..], b[1..]);
    }
  }

  lemma {:induction false} CompareFieldsTransitive(a: seq<string>, b: seq<string>, c: seq<string>)
    requires CompareFields(a, b) <= 0 && CompareFields(b, c) <= 0
    ensures CompareFields(a, c) <= 0
  {
    if a != [] && b != [] && c != [] {
      CompareEqual(a[0], b[0]);
      CompareEqual(b[0], c[0]);
      CompareEqual(a[0], c[0]);
      CompareTransitive(a[0], b[0], c[0]);
      if a[0] == b[0] == c[0] {
        CompareFieldsTransitive(a[1..], b[1..], c[1..]);
      }
    }
  }

  // ----- white space -----

  predicate IsSpace(ch: char) {
    ch in " \t\n\r" || ch == '\U{0b}' || ch == '\U{0c}'
  }

  /** `strings.TrimSpace`, on ASCII. */
  function TrimSpace(s: string): string {
    if s == [] then s
    else if IsSpace(s[0]) then TrimSpace(s[1..])
    else if IsSpace(s[|s|-1]) then TrimSpace(s[..|s|-1])
    else s
  }

  // ----- decimal printing -----

  const DIGITS := "0123456789"

  /** `%d` of an unsigned number. */
  function Decimal(n: nat): (s: string)
    ensures s != [] && forall i :: 0 <= i < |s| ==> s[i] in DIGITS
  {
    if n < 10 then [DIGITS[n]] else Decimal(n / 10) + [DIGITS[n % 10]]
  }

  function Digit(c: char): nat {
    if '0' <= c <= '9' then (c as int) - ('0' as int) else 0
  }

  function Parse(s: string): nat {
    if s == [] then 0 else 10 * Parse(s[..|s|-1]) + Digit(s[|s|-1])
  }

  /** Reading a printed number back gives the number. */
  lemma {:induction false} DecimalReadsBack(n: nat)
    ensures Parse(Decimal(n)) == n
  {
    var s := Decimal(n);
    if n < 10 {
      assert s[..0] == [];
    } else {
      DecimalReadsBack(n / 10);
      assert s[..|s|-1] == Decimal(n / 10);
    }
  }

  lemma DecimalInjective(a: nat, b: nat)
    requires Decimal(a) == Decimal(b)
    ensures a == b
  {
    DecimalReadsBack(a);
    DecimalReadsBack(b);
  }

  /** `%d` of a signed number. */
  function Printed(n: int): string {
    if n < 0 then "-" + Decimal(-n) else Decimal(n)
  }

  lemma PrintedInjective(a: int, b: int)
    requires Printed(a) == Printed(b)
    ensures a == b
  {
    NegativeShows(a);
    NegativeShows(b);
    hide Decimal;
    if a < 0 {
      assert Printed(a)[1..] == Decimal(-a) && Printed(b)[1..] == Decimal(-b);
      DecimalInjective(-a, -b);
    } else {
      DecimalInjective(a, b);
    }
  }

  lemma NegativeShows(n: int)
    ensures Printed(n) != "" && (Printed(n)[0] == '-' <==> n < 0)
  {
    if n >= 0 {
      assert Decimal(n)[0] in DIGITS;
    }
  }

  // ----- joining with a separator -----

  /** `strings.Join` with a one-byte separator. */
  function Join(parts: seq<string>, sep: char): string {
    if parts == [] then ""
    else if |parts| == 1 then parts[0]
    else parts[0] + [sep] + Join(parts[1..], sep)
  }

  predicate AllFree(parts: seq<string>, sep: char) {
    forall i :: 0 <= i < |parts| ==> sep !in parts[i]
  }

  lemma FirstPieceTells(a: string, x: string, b: string, y: string, sep: char)
    requires sep !in a && sep !in b && a + [sep] + x == b + [sep] + y
    ensures a == b && x == y
  {
    var s := a + [sep] + x;
    assert s[|a|] == sep && s[|b|] == sep;
    assert forall i :: 0 <= i < |a| ==> s[i] == a[i] && s[i] != sep;
    assert forall i :: 0 <= i < |b| ==> s[i] == b[i] && s[i] != sep;
    assert a == s[..|a|] && b == s[..|b|] && x == s[|a| + 1..] && y == s[|b| + 1..];
  }

  lemma SeparatorInJoin(parts: seq<string>, sep: char)
    requires |parts| > 1
    ensures sep in Join(parts, sep)
  {
    assert Join(parts, sep)[|parts[0]|] == sep;
  }

  /** Pieces without the separator are recovered from their join. */
  lemma {:induction false} JoinInjective(a: seq<string>, b: seq<string>, sep: char)
    requires a != [] && b != [] && AllFree(a, sep) && AllFree(b, sep)
    requires Join(a, sep) == Join(b, sep)
    ensures a == b
  {
    if |a| == 1 && |b| == 1 {
    } else if |a| == 1 {
      SeparatorInJoin(b, sep);
    } else if |b| == 1 {
      SeparatorInJoin(a, sep);
    } else {
      FirstPieceTells(a[0], Join(a[1..], sep), b[0], Join(b[1..], sep), sep);
      JoinInjective(a[1..], b[1..], sep);
      assert a == [a[0]] + a[1..] && b == [b[0]] + b[1..];
    }
  }

  lemma FirstOfJoin(a: seq<string>, b: seq<string>, sep: char)
    requires |a| > 1 && |b| > 1 && sep !in a[0] && sep !in b[0] && Join(a, sep) == Join(b, sep)
    ensures a[0] == b[0] && Join(a[1..], sep) == Join(b[1..], sep)
  {
    FirstPieceTells(a[0], Join(a[1..], sep), b[0], Join(b[1..], sep), sep);
  }

  lemma LastPieceTells(x: string, a: string, y: string, b: string, sep: char)
    requires sep !in a && sep !in b && x + [sep] + a == y + [sep] + b
    ensures a == b && x == y
  {
    var s := x + [sep] + a;
    assert s[|x|] == sep && s[|y|] == sep;
    assert forall i :: |x| < i < |s| ==> s[i] == a[i - |x| - 1] && s[i] != sep;
    assert forall i :: |y| < i < |s| ==> s[i] == b[i - |y| - 1] && s[i] != sep;
    assert x == s[..|x|] && y == s[..|y|] && a == s[|x| + 1..] && b == s[|y| + 1..];
  }

  lemma {:induction false} JoinSnoc(parts: seq<string>, x: string, sep: char)
    ensures Join(parts + [x], sep) == if parts == [] then x else Join(parts, sep) + [sep] + x
    decreases |parts|
  {
    if parts != [] {
      assert (parts + [x])[1..] == parts[1..] + [x];
      JoinSnoc(parts[1..], x, sep);
    }
  }

  /** Two joins of equally many pieces tell them all when only the first piece may hold the separator. */
  lemma {:induction false} JoinTellsTail(a: seq<string>, b: seq<string>, sep: char)
    requires |a| == |b| > 0 && AllFree(a[1..], sep) && AllFree(b[1..], sep) && Join(a, sep) == Join(b, sep)
    ensures a == b
  {
    if |a| > 1 {
      var n := |a| - 1;
      AllButLast(a, sep);
      AllButLast(b, sep);
      hide Join, AllFree;
      LastPieceTells(Join(a[..n], sep), a[n], Join(b[..n], sep), b[n], sep);
      JoinTellsTail(a[..n], b[..n], sep);
      assert a == a[..n] + [a[n]] && b == b[..n] + [b[n]];
    }
  }

  lemma AllButLast(a: seq<string>, sep: char)
    requires |a| > 1 && AllFree(a[1..], sep)
    ensures var n := |a| - 1;
            sep !in a[n] && AllFree(a[..n][1..], sep) && Join(a, sep) == Join(a[..n], sep) + [sep] + a[n]
  {
    var n := |a| - 1;
    assert a[n] == a[1..][n-1] && a[..n][1..] == a[1..][..n-1];
    assert a == a[..n] + [a[n]];
    JoinSnoc(a[..n], a[n], sep);
  }
}
