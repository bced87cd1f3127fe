/** Decimal numerals and separated fields, as Go's strconv and strings print and
    read them. */
module Numerals {
  predicate IsDigit(c: char) { '0' <= c <= '9' }

  predicate AllDigits(s: string) { forall i :: 0 <= i < |s| ==> IsDigit(s[i]) }

  function DigitChar(d: nat): char
    requires d < 10
  {
    (d + ('0' as int)) as char
  }

  /** strconv.Itoa of a number that is not negative. */
  function Digits(n: nat): (s: string)
    ensures s != "" && AllDigits(s)
    ensures |s| > 1 ==> s[0] != '0'
  {
    if n < 10 then [DigitChar(n)] else Digits(n / 10) + [DigitChar(n % 10)]
  }

  function ValueOf(s: string): nat
    requires AllDigits(s)
  {
    if s == "" then 0
    else 10 * ValueOf(s[..|s| - 1]) + ((s[|s| - 1] as int) - ('0' as int))
  }

  lemma {:induction false} ValueOfDigits(n: nat)
    ensures ValueOf(Digits(n)) == n
  {
    if n >= 10 {
      ValueOfDigits(n / 10);
      var s := Digits(n);
      assert s[..|s| - 1] == Digits(n / 10);
    }
  }

  lemma {:induction false} ValueIsPositive(s: string)
    requires AllDigits(s) && s != "" && s[0] != '0'
    ensures ValueOf(s) > 0
  {
    if |s| > 1 { ValueIsPositive(s[..|s| - 1]); }
  }

  /** A numeral without leading zeros is the one its value is printed as. */
  lemma {:induction false} DigitsOfValue(s: string)
    requires AllDigits(s) && s != "" && (|s| > 1 ==> s[0] != '0')
    ensures Digits(ValueOf(s)) == s
  {
    var front := s[..|s| - 1];
    if |s| > 1 {
      DigitsOfValue(front);
      ValueIsPositive(front);
      assert ValueOf(s) / 10 == ValueOf(front);
      assert s == front + [s[|s| - 1]];
    } else {
      assert front == "";
      assert s == [s[0]];
    }
  }

  // ---- fields ----

  /** strings.Split on one character. */
  function Split(s: string, sep: char): (fields: seq<string>)
    ensures fields != []
    ensures forall f :: f in fields ==> sep !in f
  {
    if s == "" then [""]
    else if s[0] == sep then [""] + Split(s[1..], sep)
    else
      var rest := Split(s[1..], sep);
      [[s[0]] + rest[0]] + rest[1..]
  }

  /** strings.Join. */
  function Join(fields: seq<string>, sep: char): string {
    if fields == [] then ""
    else if |fields| == 1 then fields[0]
    else fields[0] + [sep] + Join(fields[1..], sep)
  }

  lemma {:induction false} SplitAtFirst(f: string, rest: string, sep: char)
    requires sep !in f
    ensures Split(f, sep) == [f]
    ensures Split(f + [sep] + rest, sep) == [f] + Split(rest, sep)
  {
    if f == "" {
      assert (f + [sep] + rest)[1..] == rest;
    } else {
      SplitAtFirst(f[1..], rest, sep);
      assert (f + [sep] + rest)[1..] == f[1..] + [sep] + rest;
      assert [f[0]] + f[1..] == f;
    }
  }

  lemma {:induction false} SplitJoin(fields: seq<string>, sep: char)
    requires fields != [] && forall f :: f in fields ==> sep !in f
    ensures Split(Join(fields, sep), sep) == fields
  {
    SplitAtFirst(fields[0], if |fields| > 1 then Join(fields[1..], sep) else "", sep);
    if |fields| > 1 {
      SplitJoin(fields[1..], sep);
      assert [fields[0]] + fields[1..] == fields;
    } else {
      assert fields == [fields[0]];
    }
  }

  lemma {:induction false} JoinSplit(s: string, sep: char)
    ensures Join(Split(s, sep), sep) == s
  {
    if s != "" {
      JoinSplit(s[1..], sep);
      var rest := Split(s[1..], sep);
      if s[0] == sep {
        assert Split(s, sep)[1..] == rest;
      } else {
        assert Split(s, sep)[1..] == rest[1..];
      }
    }
  }

  lemma {:induction false} JoinHoldsNo(fields: seq<string>, sep: char, c: char)
    requires c != sep && forall f :: f in fields ==> c !in f
    ensures c !in Join(fields, sep)
  {
    if |fields| > 1 { JoinHoldsNo(fields[1..], sep, c); }
  }

  lemma JoinStarts(fields: seq<string>, sep: char)
    requires fields != [] && fields[0] != ""
    ensures Join(fields, sep) != "" && Join(fields, sep)[0] == fields[0][0]
  {
  }
}
