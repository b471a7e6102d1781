/**
 Read identifiers of the benchmark data carry their ground-truth length as the
 fourth `_`-separated field (`name.split("_")[3]`, parsed with Python's `int`).
 This module models the string splitting, the integer parsing and the field
 extraction, each with its partner: joining, decimal rendering and a name built
 from its fields.
 */
module ReadNames {

  datatype Option<T> = None | Some(value: T)

  /** The fields of `s` between occurrences of `sep`, as Python's `str.split(sep)`. */
  function Split(s: string, sep: char): (fields: seq<string>)
    ensures |fields| >= 1
    ensures forall i :: 0 <= i < |fields| ==> sep !in fields[i]
    decreases |s|
  {
    if s == [] then [[]]
    else
      var rest := Split(s[1..], sep);
      if s[0] == sep then [[]] + rest
      else [[s[0]] + rest[0]] + rest[1..]
  }

  /** The fields glued back together with `sep` in between, as Python's `sep.join(fields)`. */
  function Join(fields: seq<string>, sep: char): string
    decreases |fields|
  {
    if fields == [] then []
    else if |fields| == 1 then fields[0]
    else fields[0] + [sep] + Join(fields[1..], sep)
  }

  /** Joining the fields of a split gives back the original string. */
  lemma {:induction false} JoinSplit(s: string, sep: char)
    ensures Join(Split(s, sep), sep) == s
    decreases |s|
  {
    if s != [] {
      var rest := Split(s[1..], sep);
      JoinSplit(s[1..], sep);
      if s[0] == sep {
        assert ([[]] + rest)[1..] == rest;
      } else {
        var fields := [[s[0]] + rest[0]] + rest[1..];
        assert fields[1..] == rest[1..];
        if |rest| > 1 {
          assert rest[1..] != [] && Join(rest, sep) == rest[0] + [sep] + Join(rest[1..], sep);
        }
        assert [s[0]] + s[1..] == s;
      }
    }
  }

  lemma {:induction false} SplitWithoutSeparator(s: string, sep: char)
    requires sep !in s
    ensures Split(s, sep) == [s]
    decreases |s|
  {
    if s != [] {
      SplitWithoutSeparator(s[1..], sep);
      assert [s[0]] + s[1..] == s;
    }
  }

  lemma {:induction false} SplitAfterField(field: string, sep: char, rest: string)
    requires sep !in field
    ensures Split(field + [sep] + rest, sep) == [field] + Split(rest, sep)
    decreases |field|
  {
    var s := field + [sep] + rest;
    if field == [] {
      assert s[1..] == rest;
    } else {
      assert s[0] == field[0];
      assert s[1..] == field[1..] + [sep] + rest;
      SplitAfterField(field[1..], sep, rest);
      assert [field[0]] + field[1..] == field;
    }
  }

  /** Splitting undoes joining fields that do not contain the separator. */
  lemma {:induction false} SplitJoin(fields: seq<string>, sep: char)
    requires |fields| >= 1
    requires forall i :: 0 <= i < |fields| ==> sep !in fields[i]
    ensures Split(Join(fields, sep), sep) == fields
    decreases |fields|
  {
    if |fields| == 1 {
      SplitWithoutSeparator(fields[0], sep);
    } else {
      SplitJoin(fields[1..], sep);
      SplitAfterField(fields[0], sep, Join(fields[1..], sep));
      assert [fields[0]] + fields[1..] == fields;
    }
  }

  predicate IsDigit(c: char) { '0' <= c <= '9' }

  /** ASCII white space: space, tab, line feed, vertical tab, form feed, carriage return. */
  predicate IsSpace(c: char) { c == ' ' || '\t' <= c <= '\r' }

  function TrimLeft(s: string): string
    decreases |s|
  {
    if s != [] && IsSpace(s[0]) then TrimLeft(s[1..]) else s
  }

  function TrimRight(s: string): string
    decreases |s|
  {
    if s != [] && IsSpace(s[|s| - 1]) then TrimRight(s[..|s| - 1]) else s
  }

  /** The value of a string of decimal digits, most significant first. */
  function DigitsValue(ds: string): nat
    requires forall i :: 0 <= i < |ds| ==> IsDigit(ds[i])
    decreases |ds|
  {
    if ds == [] then 0
    else
      assert IsDigit(ds[|ds| - 1]);
      10 * DigitsValue(ds[..|ds| - 1]) + (ds[|ds| - 1] as int - '0' as int)
  }

  predicate AllDigits(ds: string) { forall i :: 0 <= i < |ds| ==> IsDigit(ds[i]) }

  /**
   Python's `int(text)` on a field: surrounding white space is ignored, an
   optional `+` or `-` sign is followed by one or more decimal digits. Anything
   else raises `ValueError`, modelled as `None`.
   */
  function ParseInt(text: string): Option<int>
  {
    var s := TrimRight(TrimLeft(text));
    var negative := s != [] && s[0] == '-';
    var digits := if s != [] && (s[0] == '-' || s[0] == '+') then s[1..] else s;
    if digits != [] && AllDigits(digits) then
      var magnitude: int := DigitsValue(digits);
      Some(if negative then -magnitude else magnitude)
    else None
  }

  /** The digits of `n` in decimal, most significant first, without leading zeros. */
  function NatDigits(n: nat): (ds: string)
    ensures ds != [] && AllDigits(ds)
    ensures DigitsValue(ds) == n
    decreases n
  {
    var last := ['0' + (n % 10) as char];
    if n < 10 then last else NatDigits(n / 10) + last
  }

  /** How Python's `str(n)` renders an integer. */
  function Decimal(n: int): string
  {
    if n < 0 then "-" + NatDigits(-n) else NatDigits(n)
  }

  lemma TrimNoSpace(s: string)
    requires s != [] && !IsSpace(s[0]) && !IsSpace(s[|s| - 1])
    ensures TrimRight(TrimLeft(s)) == s
  {
  }

  /** Parsing undoes the rendering of every integer. */
  lemma ParseDecimal(n: int)
    ensures ParseInt(Decimal(n)) == Some(n)
  {
    var s := Decimal(n);
    var ds := NatDigits(if n < 0 then -n else n);
    assert IsDigit(ds[0]) && IsDigit(ds[|ds| - 1]);
    TrimNoSpace(s);
    if n < 0 {
      assert s[1..] == ds;
    } else {
      assert !IsDigit('-') && !IsDigit('+');
    }
  }

  /**
   The ground-truth length of a read: the fourth `_`-separated field of its
   name, as an integer. `None` stands for the `IndexError` (fewer than four
   fields) or the `ValueError` (a field that is not an integer) the source
   raises.
   */
  function GroundTruthLength(name: string): Option<int>
  {
    var fields := Split(name, '_');
    if |fields| < 4 then None else ParseInt(fields[3])
  }

  /** The rendering of an integer holds only a sign and digits. */
  lemma DecimalWithout(n: int, c: char)
    requires !IsDigit(c) && c != '-'
    ensures c !in Decimal(n)
  {
    var ds := NatDigits(if n < 0 then -n else n);
    forall i | 0 <= i < |ds| ensures ds[i] != c {
      assert IsDigit(ds[i]);
    }
  }

  /** A name made of underscore-free fields whose fourth is the decimal rendering of `len` yields `len`. */
  lemma GroundTruthOfBuiltName(prefix: seq<string>, len: int, suffix: seq<string>)
    requires |prefix| == 3
    requires forall i :: 0 <= i < |prefix| ==> '_' !in prefix[i]
    requires forall i :: 0 <= i < |suffix| ==> '_' !in suffix[i]
    ensures GroundTruthLength(Join(prefix + [Decimal(len)] + suffix, '_')) == Some(len)
  {
    var fields := prefix + [Decimal(len)] + suffix;
    DecimalWithout(len, '_');
    forall i | 0 <= i < |fields| ensures '_' !in fields[i] {
      if i < 3 { assert fields[i] == prefix[i]; }
      else if i > 3 { assert fields[i] == suffix[i - 4]; }
    }
    SplitJoin(fields, '_');
    assert fields[3] == Decimal(len);
    ParseDecimal(len);
  }
}
