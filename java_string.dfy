/**
 * The few java.lang.String operations the beatmap reader relies on, with
 * their Java semantics written out: split on a one-character pattern (which
 * drops trailing empty strings), replace, contains, endsWith, ASCII case
 * mapping, equalsIgnoreCase and Integer.parseInt.
 */
module JavaString {

  datatype Option<T> = None | Some(value: T)

  /** The pieces of s between the occurrences of d, empty pieces included. */
  function Fields(s: string, d: char): (r: seq<string>)
    ensures |r| >= 1
    ensures forall i :: 0 <= i < |r| ==> d !in r[i]
  {
    if s == [] then [[]]
    else
      var rest := Fields(s[1..], d);
      if s[0] == d then [[]] + rest
      else [[s[0]] + rest[0]] + rest[1..]
  }

  /** Glues pieces back together with d between neighbours. */
  function Join(ss: seq<string>, d: char): string
  {
    if |ss| == 0 then []
    else if |ss| == 1 then ss[0]
    else ss[0] + [d] + Join(ss[1..], d)
  }

  /** Cutting at every d and gluing back with d gives s again. */
  lemma {:induction false} JoinFields(s: string, d: char)
    ensures Join(Fields(s, d), d) == s
  {
    if s != [] {
      JoinFields(s[1..], d);
      var rest := Fields(s[1..], d);
      if s[0] != d {
        if |rest| == 1 {
          assert s == [s[0]] + s[1..];
        } else {
          assert Join(rest, d) == rest[0] + [d] + Join(rest[1..], d);
          assert ([[s[0]] + rest[0]] + rest[1..])[1..] == rest[1..];
          assert s == [s[0]] + s[1..];
        }
      }
    }
  }

  /** Gluing pieces free of d and cutting again gives the pieces back. */
  lemma {:induction false} FieldsJoin(ss: seq<string>, d: char)
    requires |ss| >= 1 && forall i :: 0 <= i < |ss| ==> d !in ss[i]
    ensures Fields(Join(ss, d), d) == ss
  {
    if |ss| == 1 {
      FieldsOfPiece(ss[0], d);
    } else {
      FieldsJoin(ss[1..], d);
      FieldsAfterPiece(ss[0], Join(ss[1..], d), d);
      assert ss == [ss[0]] + ss[1..];
    }
  }

  lemma {:induction false} FieldsOfPiece(a: string, d: char)
    requires d !in a
    ensures Fields(a, d) == [a]
  {
    if a != [] {
      FieldsOfPiece(a[1..], d);
      assert a == [a[0]] + a[1..];
    }
  }

  /** A leading piece free of d comes off as the first field. */
  lemma {:induction false} FieldsAfterPiece(a: string, b: string, d: char)
    requires d !in a
    ensures Fields(a + [d] + b, d) == [a] + Fields(b, d)
  {
    if a == [] {
      assert a + [d] + b == [d] + b;
      assert ([d] + b)[1..] == b;
    } else {
      FieldsAfterPiece(a[1..], b, d);
      assert (a + [d] + b)[1..] == a[1..] + [d] + b;
      assert a == [a[0]] + a[1..];
    }
  }

  /** A trailing piece free of d comes off as the last field. */
  lemma {:induction false} FieldsBeforePiece(a: string, b: string, d: char)
    requires d !in b
    ensures Fields(a + [d] + b, d) == Fields(a, d) + [b]
  {
    if a == [] {
      assert a + [d] + b == [d] + b;
      assert ([d] + b)[1..] == b;
      FieldsOfPiece(b, d);
    } else {
      FieldsBeforePiece(a[1..], b, d);
      assert (a + [d] + b)[1..] == a[1..] + [d] + b;
    }
  }

  /** ss without its trailing empty strings. */
  function DropTrailingEmpty(ss: seq<string>): (r: seq<string>)
    ensures |r| <= |ss| && r == ss[..|r|]
    ensures r == [] || r[|r| - 1] != []
    ensures forall i :: |r| <= i < |ss| ==> ss[i] == []
  {
    if ss == [] then []
    else if ss[|ss| - 1] == [] then DropTrailingEmpty(ss[..|ss| - 1])
    else ss
  }

  /** String.split with a one-character pattern d and limit 0: the fields
      without the trailing empty ones, or [s] itself when d does not occur. */
  function Split(s: string, d: char): (r: seq<string>)
    ensures d !in s ==> r == [s]
    ensures forall i :: 0 <= i < |r| ==> d !in r[i]
    ensures d in s ==> r == [] || r[|r| - 1] != []
  {
    if d !in s then [s] else DropTrailingEmpty(Fields(s, d))
  }

  /** Splitting yields nothing exactly when s is made of d alone. */
  lemma SplitEmpty(s: string, d: char)
    ensures Split(s, d) == [] <==> s != [] && forall i :: 0 <= i < |s| ==> s[i] == d
  {
    if d in s {
      var f := Fields(s, d);
      JoinFields(s, d);
      if Split(s, d) == [] {
        AllEmptyJoin(f, d);
      } else {
        var r := Split(s, d);
        assert r[|r| - 1] != [] && r[|r| - 1] == f[|r| - 1];
        JoinHasPiece(f, |r| - 1, d);
      }
    } else if s != [] {
      assert s[0] in s;
    }
  }

  lemma {:induction false} AllEmptyJoin(ss: seq<string>, d: char)
    requires forall i :: 0 <= i < |ss| ==> ss[i] == []
    ensures forall i :: 0 <= i < |Join(ss, d)| ==> Join(ss, d)[i] == d
  {
    if |ss| > 1 {
      AllEmptyJoin(ss[1..], d);
    }
  }

  /** A nonempty piece free of d leaves a character other than d in the join. */
  lemma {:induction false} JoinHasPiece(ss: seq<string>, k: int, d: char)
    requires 0 <= k < |ss| && ss[k] != [] && d !in ss[k]
    ensures exists i :: 0 <= i < |Join(ss, d)| && Join(ss, d)[i] != d
  {
    if |ss| == 1 || k == 0 {
      assert ss[k][0] in ss[k];
      assert Join(ss, d)[0] == ss[0][0];
    } else {
      JoinHasPiece(ss[1..], k - 1, d);
      var i :| 0 <= i < |Join(ss[1..], d)| && Join(ss[1..], d)[i] != d;
      assert Join(ss, d)[|ss[0]| + 1 + i] == Join(ss[1..], d)[i];
    }
  }

  /** "a<d>b" splits into exactly a and b when neither holds d and b is not
      empty. */
  lemma SplitTwo(a: string, b: string, d: char)
    requires d !in a && d !in b && b != []
    ensures Split(a + [d] + b, d) == [a, b]
  {
    var s := a + [d] + b;
    assert s[|a|] == d && d in s;
    FieldsAfterPiece(a, b, d);
    FieldsOfPiece(b, d);
  }

  /** "a<d>b" with a nonempty and free of d splits with a first. */
  lemma SplitHead(a: string, b: string, d: char)
    requires d !in a && a != []
    ensures |Split(a + [d] + b, d)| >= 1 && Split(a + [d] + b, d)[0] == a
  {
    var s := a + [d] + b;
    assert s[|a|] == d && d in s;
    FieldsAfterPiece(a, b, d);
    var f := Fields(s, d);
    assert f[0] == a;
    var r := DropTrailingEmpty(f);
    assert |r| > 0;
    assert r[0] == f[0];
  }

  /** "a<d>b" with b nonempty and free of d splits with b last. */
  lemma SplitLast(a: string, b: string, d: char)
    requires d !in b && b != []
    ensures |Split(a + [d] + b, d)| >= 1 && Split(a + [d] + b, d)[|Split(a + [d] + b, d)| - 1] == b
  {
    var s := a + [d] + b;
    assert s[|a|] == d && d in s;
    FieldsBeforePiece(a, b, d);
  }

  /** When s ends in a character other than d, its last field is not empty
      and ends in that character. */
  lemma {:induction false} FieldsKeepLast(s: string, d: char)
    requires s != [] && s[|s| - 1] != d
    ensures var f := Fields(s, d); f[|f| - 1] != [] && f[|f| - 1][|f[|f| - 1]| - 1] == s[|s| - 1]
  {
    var rest := Fields(s[1..], d);
    var f := Fields(s, d);
    if |s| == 1 {
      assert s[1..] == [] && s[0] != d;
      assert rest == [[]] && rest[0] == [] && rest[1..] == [];
      assert f == [[s[0]] + rest[0]] + rest[1..];
    } else {
      FieldsKeepLast(s[1..], d);
      var last := rest[|rest| - 1];
      if s[0] == d {
        assert f == [[]] + rest;
        assert f[|f| - 1] == last;
      } else if |rest| == 1 {
        assert f == [[s[0]] + rest[0]];
      } else {
        assert f == [[s[0]] + rest[0]] + rest[1..];
        assert f[|f| - 1] == last;
      }
    }
  }

  /** When s ends in a character other than d, split(d) yields at least one
      piece, and the last one ends in that character. */
  lemma SplitKeepsLast(s: string, d: char)
    requires s != [] && s[|s| - 1] != d
    ensures var r := Split(s, d); |r| >= 1 && r[|r| - 1] != [] && r[|r| - 1][|r[|r| - 1]| - 1] == s[|s| - 1]
  {
    if d in s {
      FieldsKeepLast(s, d);
    }
  }

  predicate StartsWith(s: string, t: string) { |t| <= |s| && s[..|t|] == t }

  /** String.endsWith. */
  predicate EndsWith(s: string, t: string) { |t| <= |s| && s[|s| - |t|..] == t }

  /** String.contains: t occurs somewhere in s. */
  predicate Contains(s: string, t: string)
    decreases |s|
  {
    StartsWith(s, t) || (s != [] && Contains(s[1..], t))
  }

  /** t occurs in s at position i. */
  predicate OccursAt(s: string, t: string, i: int)
  {
    0 <= i && i + |t| <= |s| && s[i..i + |t|] == t
  }

  /** contains read as an occurrence at some position. */
  lemma {:induction false} ContainsAt(s: string, t: string)
    ensures Contains(s, t) <==> exists i :: OccursAt(s, t, i)
  {
    if StartsWith(s, t) {
      assert OccursAt(s, t, 0);
    } else if s != [] {
      ContainsAt(s[1..], t);
      if exists i :: OccursAt(s, t, i) {
        var i :| OccursAt(s, t, i);
        assert i != 0;
        assert OccursAt(s[1..], t, i - 1) by {
          assert s[1..][i - 1..i - 1 + |t|] == s[i..i + |t|];
        }
      }
      if Contains(s[1..], t) {
        var i :| OccursAt(s[1..], t, i);
        assert OccursAt(s, t, i + 1) by {
          assert s[1..][i..i + |t|] == s[i + 1..i + 1 + |t|];
        }
      }
    }
  }

  /** Containing a one-character string is membership. */
  lemma {:induction false} ContainsChar(s: string, c: char)
    ensures Contains(s, [c]) <==> c in s
  {
    if s != [] {
      ContainsChar(s[1..], c);
      assert s == [s[0]] + s[1..];
    }
  }

  /** Contains is closed under putting text around. */
  lemma {:induction false} ContainsInfix(a: string, t: string, b: string)
    ensures Contains(a + t + b, t)
  {
    if a != [] {
      ContainsInfix(a[1..], t, b);
      assert (a + t + b)[1..] == a[1..] + t + b;
    } else {
      assert (a + t + b)[..|t|] == t;
    }
  }

  /** String.replace: every occurrence of target, scanned from the left and
      without overlaps, becomes repl. */
  function Replace(s: string, target: string, repl: string): string
    requires target != []
    decreases |s|
  {
    if |s| < |target| then s
    else if s[..|target|] == target then repl + Replace(s[|target|..], target, repl)
    else [s[0]] + Replace(s[1..], target, repl)
  }

  /** With no occurrence of target, replace changes nothing. */
  lemma {:induction false} ReplaceAbsent(s: string, target: string, repl: string)
    requires target != [] && !Contains(s, target)
    ensures Replace(s, target, repl) == s
  {
    if |s| >= |target| {
      ReplaceAbsent(s[1..], target, repl);
      assert s == [s[0]] + s[1..];
    }
  }

  /** A prefix that lacks the first character of target passes unchanged. */
  lemma {:induction false} ReplaceSkip(a: string, rest: string, target: string, repl: string)
    requires target != [] && target[0] !in a
    ensures Replace(a + rest, target, repl) == a + Replace(rest, target, repl)
  {
    if a != [] {
      var s := a + rest;
      assert s[1..] == a[1..] + rest;
      assert s[0] == a[0] && a[0] in a;
      assert a == [a[0]] + a[1..];
      ReplaceSkip(a[1..], rest, target, repl);
      if |s| >= |target| {
        assert s[..|target|][0] == a[0];
        assert s[..|target|] != target;
        assert Replace(s, target, repl) == [s[0]] + Replace(s[1..], target, repl);
        assert [s[0]] + Replace(s[1..], target, repl) == [a[0]] + (a[1..] + Replace(rest, target, repl));
      } else {
        assert Replace(rest, target, repl) == rest;
      }
    } else {
      assert a + rest == rest;
    }
  }

  /** An occurrence at the front is replaced. */
  lemma ReplaceFront(target: string, rest: string, repl: string)
    requires target != []
    ensures Replace(target + rest, target, repl) == repl + Replace(rest, target, repl)
  {
    assert (target + rest)[..|target|] == target;
    assert (target + rest)[|target|..] == rest;
  }

  /** Character.toLowerCase on ASCII letters. */
  function LowerChar(c: char): char
  {
    if 'A' <= c <= 'Z' then (c as int + 32) as char else c
  }

  /** Character.toUpperCase on ASCII letters. */
  function UpperChar(c: char): char
  {
    if 'a' <= c <= 'z' then (c as int - 32) as char else c
  }

  /** String.toLowerCase, ASCII case mapping. */
  function ToLower(s: string): (r: string)
    ensures |r| == |s|
    ensures forall i :: 0 <= i < |s| ==> r[i] == LowerChar(s[i])
  {
    if s == [] then [] else [LowerChar(s[0])] + ToLower(s[1..])
  }

  /** Lower-casing twice is lower-casing once. */
  lemma ToLowerIdempotent(s: string)
    ensures ToLower(ToLower(s)) == ToLower(s)
  {
    assert forall i :: 0 <= i < |s| ==> LowerChar(LowerChar(s[i])) == LowerChar(s[i]);
  }

  /** The per-character test of String.equalsIgnoreCase: equal, or equal in
      upper case, or equal once the upper cases are lower-cased. */
  predicate CharEqualsIgnoreCase(c1: char, c2: char)
  {
    c1 == c2 || UpperChar(c1) == UpperChar(c2) || LowerChar(UpperChar(c1)) == LowerChar(UpperChar(c2))
  }

  /** String.equalsIgnoreCase. */
  predicate EqualsIgnoreCase(a: string, b: string)
  {
    |a| == |b| && forall i :: 0 <= i < |a| ==> CharEqualsIgnoreCase(a[i], b[i])
  }

  /** Under ASCII case mapping, equalsIgnoreCase is equality of the
      lower-cased strings, so it is reflexive, symmetric and transitive. */
  lemma EqualsIgnoreCaseIsLowerEquality(a: string, b: string)
    ensures EqualsIgnoreCase(a, b) <==> ToLower(a) == ToLower(b)
  {
    forall i | 0 <= i < |a| && i < |b| ensures CharEqualsIgnoreCase(a[i], b[i]) <==> LowerChar(a[i]) == LowerChar(b[i]) {
      CharCase(a[i], b[i]);
    }
    if EqualsIgnoreCase(a, b) {
      assert forall i :: 0 <= i < |a| ==> ToLower(a)[i] == ToLower(b)[i];
    }
    if ToLower(a) == ToLower(b) {
      assert forall i :: 0 <= i < |a| ==> ToLower(a)[i] == ToLower(b)[i];
    }
  }

  /** One character pair: the three-way test is equality after lower-casing. */
  lemma CharCase(c1: char, c2: char)
    ensures CharEqualsIgnoreCase(c1, c2) <==> LowerChar(c1) == LowerChar(c2)
  {
  }

  /** Decimal value of ASCII digit c. */
  predicate IsDigit(c: char) { '0' <= c <= '9' }

  function DigitValue(c: char): (v: nat)
    requires IsDigit(c)
    ensures v <= 9
  {
    c as int - '0' as int
  }

  /** Value of a string of decimal digits, most significant first. */
  function DigitsValue(s: string): (n: nat)
    requires forall i :: 0 <= i < |s| ==> IsDigit(s[i])
  {
    if s == [] then 0 else DigitsValue(s[..|s| - 1]) * 10 + DigitValue(s[|s| - 1])
  }

  const INT_MIN: int := -0x8000_0000
  const INT_MAX: int := 0x7fff_ffff

  /** Integer.parseInt: an optional sign, then one or more ASCII digits, with a
      value that fits in 32 bits; anything else is a NumberFormatException
      (None). */
  function ParseInt(s: string): (r: Option<int>)
    ensures r.Some? ==> INT_MIN <= r.value <= INT_MAX
    ensures s == [] || s == "-" || s == "+" ==> r == None
  {
    var negative := s != [] && s[0] == '-';
    var digits := if s != [] && (s[0] == '-' || s[0] == '+') then s[1..] else s;
    if digits == [] || exists i :: 0 <= i < |digits| && !IsDigit(digits[i]) then None
    else
      var v: int := if negative then -(DigitsValue(digits) as int) else DigitsValue(digits);
      if INT_MIN <= v <= INT_MAX then Some(v) else None
  }

  /** Decimal digits of n, most significant first, without leading zeros. */
  function NatToString(n: nat): (s: string)
    ensures s != [] && forall i :: 0 <= i < |s| ==> IsDigit(s[i])
  {
    if n < 10 then ['0' + n as char] else NatToString(n / 10) + ['0' + (n % 10) as char]
  }

  /** Integer.toString. */
  function IntToString(n: int): string
  {
    if n < 0 then "-" + NatToString(-n) else NatToString(n)
  }

  lemma {:induction false} NatToStringValue(n: nat)
    ensures DigitsValue(NatToString(n)) == n
  {
    if n >= 10 {
      NatToStringValue(n / 10);
      var s := NatToString(n);
      assert s[..|s| - 1] == NatToString(n / 10);
    }
  }

  /** parseInt reads back what toString writes, for every 32-bit value. */
  lemma ParseIntToString(n: int)
    requires INT_MIN <= n <= INT_MAX
    ensures ParseInt(IntToString(n)) == Some(n)
  {
    var m := if n < 0 then -n else n;
    NatToStringValue(m);
    var d := NatToString(m);
    if n < 0 {
      assert IntToString(n)[1..] == d;
    }
  }
}
