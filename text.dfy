/** Text helpers the string builders share: joining clauses and Python's `str(int)`. */
module Text {

  /** The clauses laid end to end, first to last. */
  function Concat(parts: seq<string>): string
  {
    if parts == [] then "" else Concat(parts[..|parts| - 1]) + parts[|parts| - 1]
  }

  /** Joining a longer list extends the text of the shorter one. */
  lemma {:induction false} ConcatAppend(a: seq<string>, b: seq<string>)
    ensures Concat(a + b) == Concat(a) + Concat(b)
  {
    if b != [] {
      var n := |b| - 1;
      assert (a + b)[..|a| + n] == a + b[..n];
      ConcatAppend(a, b[..n]);
      assert (a + b)[|a| + n] == b[n];
      assert Concat(a + b) == Concat(a + b[..n]) + b[n];
    } else {
      assert a + b == a;
    }
  }

  /** Regrouping a concatenation of three sequences (texts, logs). */
  lemma AppendAssoc<T>(a: seq<T>, b: seq<T>, c: seq<T>)
    ensures (a + b) + c == a + (b + c)
  {
  }

  /** Appending nothing leaves a text unchanged. */
  lemma AppendEmpty(a: string)
    ensures a + "" == a
  {
  }

  /** Joining a single clause gives that clause. */
  lemma ConcatSingle(x: string)
    ensures Concat([x]) == x
  {
    assert [x][..0] == [];
  }

  /** The character of a decimal digit. */
  function DigitChar(d: nat): char
    requires d < 10
  {
    ('0' as int + d) as char
  }

  function DigitValue(c: char): int
  {
    c as int - '0' as int
  }

  /** Decimal digits of a natural number, most significant first, without leading zeros. */
  function NatText(n: nat): (s: string)
    ensures |s| >= 1
    ensures forall i :: 0 <= i < |s| ==> '0' <= s[i] <= '9'
  {
    if n < 10 then [DigitChar(n)] else NatText(n / 10) + [DigitChar(n % 10)]
  }

  /** `str(n)` for a Python int: a minus sign for negative numbers, then the digits. */
  function IntText(n: int): string
  {
    if n < 0 then "-" + NatText(-n) else NatText(n)
  }

  /** Reads back a run of decimal digits. */
  function NatValue(s: string): int
  {
    if s == [] then 0 else 10 * NatValue(s[..|s| - 1]) + DigitValue(s[|s| - 1])
  }

  /** Reads back the text of a Python int (`int(s)`). */
  function IntValue(s: string): int
  {
    if |s| > 0 && s[0] == '-' then -NatValue(s[1..]) else NatValue(s)
  }

  lemma {:induction false} NatRoundTrip(n: nat)
    ensures NatValue(NatText(n)) == n
  {
    var s := NatText(n);
    if n < 10 {
      assert s[..0] == [];
      assert NatValue(s) == 10 * NatValue([]) + DigitValue(DigitChar(n));
    } else {
      NatRoundTrip(n / 10);
      assert s[..|s| - 1] == NatText(n / 10);
      assert NatValue(s) == 10 * (n / 10) + DigitValue(DigitChar(n % 10));
    }
  }

  /** The rendered number reads back as the same number: `int(str(n)) == n`. */
  lemma {:induction false} IntRoundTrip(n: int)
    ensures IntValue(IntText(n)) == n
  {
    var s := IntText(n);
    if n < 0 {
      NatRoundTrip(-n);
      assert s[0] == '-' && s[1..] == NatText(-n);
    } else {
      NatRoundTrip(n);
      assert '0' <= s[0] <= '9';
    }
  }
}
