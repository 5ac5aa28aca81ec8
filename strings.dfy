/**
 * The Python string operations the model needs: `str.split` on one
 * character, `sep.join(parts)`, `str(n)` and `int(s, 10)` for ASCII digits.
 */
module Strings {

  /** `sep.join(parts)`. */
  function Join(parts: seq<string>, sep: string): string
  {
    if |parts| == 0 then ""
    else if |parts| == 1 then parts[0]
    else parts[0] + sep + Join(parts[1..], sep)
  }

  /** `s.split(c)`: never empty; the pieces hold no `c`. */
  function Split(s: string, c: char): (parts: seq<string>)
    ensures |parts| >= 1
    ensures forall i :: 0 <= i < |parts| ==> c !in parts[i]
  {
    if s == [] then [""]
    else if s[0] == c then [""] + Split(s[1..], c)
    else
      var rest := Split(s[1..], c);
      [[s[0]] + rest[0]] + rest[1..]
  }

  /** Splitting a join on the separator gives the pieces back, when no piece holds the separator. */
  lemma {:induction false} SplitJoin(parts: seq<string>, c: char)
    requires |parts| >= 1
    requires forall i :: 0 <= i < |parts| ==> c !in parts[i]
    ensures Split(Join(parts, [c]), c) == parts
    decreases |parts|, |parts[0]|
  {
    var p := parts[0];
    if p == [] {
      if |parts| > 1 {
        assert Join(parts, [c]) == [c] + Join(parts[1..], [c]);
        SplitJoin(parts[1..], c);
        assert parts == [""] + parts[1..];
      } else {
        assert Join(parts, [c]) == "";
      }
    } else {
      var parts' := [p[1..]] + parts[1..];
      assert parts'[1..] == parts[1..];
      SplitJoin(parts', c);
      if |parts| == 1 {
        assert Join(parts, [c]) == [p[0]] + Join(parts', [c]);
      } else {
        assert Join(parts, [c]) == [p[0]] + Join(parts', [c]) by {
          assert p == [p[0]] + p[1..];
        }
      }
      assert Join(parts, [c])[1..] == Join(parts', [c]);
      assert p[0] != c && p == [p[0]] + p[1..];
      assert parts == [[p[0]] + parts'[0]] + parts'[1..];
    }
  }

  /** Joining the pieces of a split with the separator gives the text back. */
  lemma {:induction false} JoinSplit(s: string, c: char)
    ensures Join(Split(s, c), [c]) == s
    decreases |s|
  {
    if s != [] {
      var rest := Split(s[1..], c);
      JoinSplit(s[1..], c);
      if s[0] == c {
        assert Split(s, c) == [""] + rest;
        assert ([""] + rest)[1..] == rest;
      } else {
        var parts := Split(s, c);
        assert parts == [[s[0]] + rest[0]] + rest[1..];
        if |rest| > 1 {
          assert parts[1..] == rest[1..];
          assert Join(rest, [c]) == rest[0] + [c] + Join(rest[1..], [c]);
        }
      }
    }
  }

  lemma JoinFour(a: string, b: string, c: string, d: string, sep: string)
    ensures Join([a, b, c, d], sep) == a + sep + b + sep + c + sep + d
  {
    assert [c, d][1..] == [d];
    assert Join([c, d], sep) == c + sep + d;
    assert [b, c, d][1..] == [c, d];
    assert Join([b, c, d], sep) == b + sep + c + sep + d;
    assert [a, b, c, d][1..] == [b, c, d];
  }

  /** A character in no piece and not in the separator is not in the join. */
  lemma {:induction false} JoinHasNo(parts: seq<string>, sep: string, c: char)
    requires c !in sep
    requires forall i :: 0 <= i < |parts| ==> c !in parts[i]
    ensures c !in Join(parts, sep)
    decreases |parts|
  {
    if |parts| > 1 {
      JoinHasNo(parts[1..], sep, c);
    }
  }

  predicate IsDigit(c: char)
  {
    '0' <= c <= '9'
  }

  /** `s.isascii() and s.isdigit()`: non-empty and ASCII digits only. */
  predicate IsDecimal(s: string)
  {
    |s| > 0 && forall i :: 0 <= i < |s| ==> IsDigit(s[i])
  }

  /** The value of a string of ASCII digits, `int(s, 10)`. */
  function DigitsValue(s: string): nat
    requires forall i :: 0 <= i < |s| ==> IsDigit(s[i])
  {
    if s == [] then 0
    else
      assert IsDigit(s[|s| - 1]);
      DigitsValue(s[..|s| - 1]) * 10 + (s[|s| - 1] as int - '0' as int)
  }

  function DigitChar(d: nat): char
    requires d < 10
  {
    ('0' as int + d) as char
  }

  /** `str(n)`: digits only, no leading zero, and it reads back as `n`. */
  function Decimal(n: nat): (s: string)
    ensures IsDecimal(s)
    ensures DigitsValue(s) == n
    ensures s[0] == '0' ==> s == "0"
    ensures n < 10 ==> |s| == 1
    ensures 10 <= n < 100 ==> |s| == 2
    ensures 100 <= n < 1000 ==> |s| == 3
  {
    if n < 10 then [DigitChar(n)]
    else
      var s := Decimal(n / 10) + [DigitChar(n % 10)];
      assert s[..|s| - 1] == Decimal(n / 10);
      s
  }

  /** A digit string with no leading zero is `str` of its value. */
  lemma {:induction false} DecimalCanonical(s: string)
    requires IsDecimal(s)
    requires s[0] == '0' ==> s == "0"
    ensures Decimal(DigitsValue(s)) == s
    decreases |s|
  {
    var init, d := s[..|s| - 1], s[|s| - 1];
    assert IsDigit(d);
    if |s| == 1 {
      assert init == [];
      assert DigitChar(d as int - '0' as int) == d;
    } else {
      assert init[0] == s[0];
      assert IsDecimal(init);
      DecimalCanonical(init);
      var w := DigitsValue(init);
      assert init[0] != '0' && Decimal(0) == "0";
      assert w != 0;
      var v := DigitsValue(s);
      assert v == w * 10 + (d as int - '0' as int);
      assert v / 10 == w && v % 10 == d as int - '0' as int;
      assert DigitChar(v % 10) == d;
      assert s == init + [d];
    }
  }
}
