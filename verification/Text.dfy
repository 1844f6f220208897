/** Decimal text and the bytewise order of strings, as SQLite and S3 compare them. */
module Text {

  datatype Option<+T> = None | Some(value: T) {
    predicate IsFailure() {
      None?
    }

    function PropagateFailure<U>(): Option<U>
      requires None?
    {
      None
    }

    function Extract(): T
      requires Some?
    {
      value
    }
  }

  const INT64_LIMIT := 0x8000_0000_0000_0000

  /** The first item of that ID. */
  function FindByID<T>(items: seq<T>, idOf: T -> string, id: string): (r: Option<T>)
    ensures r.Some? ==> r.value in items && idOf(r.value) == id
  {
    if items == [] then None
    else if idOf(items[0]) == id then Some(items[0])
    else FindByID(items[1..], idOf, id)
  }

  /** A lookup finds the first item of the ID. */
  lemma {:induction false} FindsFirst<T>(items: seq<T>, idOf: T -> string, id: string, i: nat)
    requires i < |items| && idOf(items[i]) == id && forall j :: 0 <= j < i ==> idOf(items[j]) != id
    ensures FindByID(items, idOf, id) == Some(items[i])
  {
    if i > 0 {
      FindsFirst(items[1..], idOf, id, i - 1);
    }
  }

  /** So it misses only if no item has the ID. */
  lemma {:induction false} FindsByID<T>(items: seq<T>, idOf: T -> string, id: string, i: nat)
    requires i < |items| && idOf(items[i]) == id
    ensures FindByID(items, idOf, id).Some?
  {
    if idOf(items[0]) != id {
      FindsByID(items[1..], idOf, id, i - 1);
    }
  }

  predicate IsDigit(c: char) {
    '0' <= c <= '9'
  }

  predicate AllDigits(s: string) {
    forall i :: 0 <= i < |s| ==> IsDigit(s[i])
  }

  function DigitChar(d: nat): (c: char)
    requires d < 10
    ensures IsDigit(c) && DigitValue(c) == d
  {
    '0' + d as char
  }

  function DigitValue(c: char): (d: nat)
    requires IsDigit(c)
    ensures d < 10
  {
    c as int - '0' as int
  }

  function Pow10(w: nat): (p: nat)
    ensures p > 0
  {
    if w == 0 then 1 else 10 * Pow10(w - 1)
  }

  /** The last `w` decimal digits of `n`, zero padded. */
  function Pad(n: nat, w: nat): (s: string)
    ensures |s| == w && AllDigits(s)
  {
    if w == 0 then "" else Pad(n / 10, w - 1) + [DigitChar(n % 10)]
  }

  function Itoa(n: nat): (s: string)
    ensures |s| > 0 && AllDigits(s)
  {
    if n < 10 then [DigitChar(n)] else Itoa(n / 10) + [DigitChar(n % 10)]
  }

  /** Decimal text of any integer: Go's %d. */
  function IntText(n: int): string {
    if n < 0 then "-" + Itoa(-n) else Itoa(n)
  }

  /** Decimal text padded with zeros to at least `w` digits. */
  function PadMin(n: nat, w: nat): string {
    if n < Pow10(w) then Pad(n, w) else Itoa(n)
  }

  function Value(s: string): nat
    requires AllDigits(s)
  {
    if s == "" then 0 else Value(s[..|s| - 1]) * 10 + DigitValue(s[|s| - 1])
  }

  lemma {:induction false} PadValue(n: nat, w: nat)
    requires n < Pow10(w)
    ensures Value(Pad(n, w)) == n
  {
    if w > 0 {
      PadValue(n / 10, w - 1);
      assert Pad(n, w)[..w - 1] == Pad(n / 10, w - 1);
    }
  }

  lemma {:induction false} ItoaValue(n: nat)
    ensures Value(Itoa(n)) == n
  {
    if n >= 10 {
      ItoaValue(n / 10);
      assert Itoa(n)[..|Itoa(n)| - 1] == Itoa(n / 10);
    } else {
      assert [DigitChar(n)][..0] == "";
    }
  }

  lemma {:induction false} ItoaIsPad(n: nat)
    ensures n < Pow10(|Itoa(n)|) && Itoa(n) == Pad(n, |Itoa(n)|)
  {
    if n >= 10 {
      ItoaIsPad(n / 10);
    } else {
      assert Pow10(1) == 10 * Pow10(0);
      assert Pad(n, 1) == Pad(n / 10, 0) + [DigitChar(n % 10)];
    }
  }

  lemma IntTextInjective(m: int, n: int)
    requires IntText(m) == IntText(n)
    ensures m == n
  {
    assert m < 0 <==> IntText(m)[0] == '-';
    assert n < 0 <==> IntText(n)[0] == '-';
    if m < 0 {
      assert Itoa(-m) == IntText(m)[1..] == IntText(n)[1..] == Itoa(-n);
      ItoaValue(-m);
      ItoaValue(-n);
    } else {
      ItoaValue(m);
      ItoaValue(n);
    }
  }

  /** Bytewise order: the first differing character decides, a proper prefix comes first. */
  predicate Less(a: string, b: string) {
    if b == "" then false
    else if a == "" then true
    else a[0] < b[0] || (a[0] == b[0] && Less(a[1..], b[1..]))
  }

  /** Comparing texts that start with equally long parts compares those parts first. */
  lemma {:induction false} LessConcat(x: string, a: string, y: string, b: string)
    requires |x| == |y|
    ensures Less(x + a, y + b) <==> Less(x, y) || (x == y && Less(a, b))
    ensures x + a == y + b <==> x == y && a == b
  {
    if x == "" {
      assert x + a == a && y + b == b;
    } else {
      assert (x + a)[1..] == x[1..] + a && (y + b)[1..] == y[1..] + b;
      LessConcat(x[1..], a, y[1..], b);
      assert x == [x[0]] + x[1..] && y == [y[0]] + y[1..];
      assert x + a == [x[0]] + (x[1..] + a) && y + b == [y[0]] + (y[1..] + b);
    }
  }

  lemma {:induction false} LessTotal(a: string, b: string)
    ensures a == b <==> !Less(a, b) && !Less(b, a)
    ensures !(Less(a, b) && Less(b, a))
  {
    if a != "" && b != "" {
      LessTotal(a[1..], b[1..]);
      assert a == [a[0]] + a[1..] && b == [b[0]] + b[1..];
    }
  }

  lemma {:induction false} LessTransitive(a: string, b: string, c: string)
    ensures Less(a, b) && Less(b, c) ==> Less(a, c)
  {
    if a != "" && b != "" && c != "" {
      LessTransitive(a[1..], b[1..], c[1..]);
    }
  }

  /** "Not after" is transitive too, so sorting by text is sorting by a total preorder. */
  lemma NotAfterTransitive(a: string, b: string, c: string)
    requires !Less(b, a) && !Less(c, b)
    ensures !Less(c, a)
  {
    LessTotal(a, b);
    LessTotal(b, c);
    LessTotal(a, c);
    LessTransitive(a, b, c);
  }

  /** Equally wide zero-padded numbers sort as numbers. */
  lemma {:induction false} PadOrder(m: nat, n: nat, w: nat)
    requires m < Pow10(w) && n < Pow10(w)
    ensures Less(Pad(m, w), Pad(n, w)) <==> m < n
    ensures Pad(m, w) == Pad(n, w) <==> m == n
  {
    PadValue(m, w);
    PadValue(n, w);
    if w > 0 {
      PadOrder(m / 10, n / 10, w - 1);
      LessConcat(Pad(m / 10, w - 1), [DigitChar(m % 10)], Pad(n / 10, w - 1), [DigitChar(n % 10)]);
      LessOne(DigitChar(m % 10), DigitChar(n % 10));
    }
  }

  lemma LessOne(c: char, d: char)
    ensures Less([c], [d]) <==> c < d
  {
    assert [c][1..] == "" && [d][1..] == "";
  }

  lemma ItoaOrder(m: nat, n: nat)
    requires |Itoa(m)| == |Itoa(n)|
    ensures Less(Itoa(m), Itoa(n)) <==> m < n
  {
    ItoaIsPad(m);
    ItoaIsPad(n);
    PadOrder(m, n, |Itoa(m)|);
  }

  /** The value of a text by its leading digit. */
  lemma {:induction false} ValueCons(c: char, s: string)
    requires IsDigit(c) && AllDigits(s)
    ensures Value([c] + s) == DigitValue(c) * Pow10(|s|) + Value(s)
  {
    if s == "" {
      assert [c] + s == [c] && [c][..0] == "";
      assert Value([c]) == Value([c][..0]) * 10 + DigitValue(c);
    } else {
      var r, d := s[..|s| - 1], s[|s| - 1];
      assert ([c] + s)[..|s|] == [c] + r && ([c] + s)[|s|] == d;
      ValueCons(c, r);
      assert Pow10(|s|) == 10 * Pow10(|r|);
      assert DigitValue(c) * Pow10(|s|) == 10 * (DigitValue(c) * Pow10(|r|));
    }
  }
}
