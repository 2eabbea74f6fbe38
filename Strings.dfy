/** The Foundation string operations the fontsheet core relies on, modelled over
    `seq<char>`: `components(separatedBy:)` (Split), the separator join that is its
    inverse (Join), integer interpolation `"\(n)"` (IntToString) with a reader for it
    (ParseInt), `capitalized` (ASCII only) and `first`. */
module Strings {
  import opened Wrappers

  // ---------------------------------------------------------------------------
  // Splitting at separator characters

  /** No character of `s` is a separator. */
  predicate NoSep(s: string, isSep: char -> bool) {
    forall j :: 0 <= j < |s| ==> !isSep(s[j])
  }

  /** Number of separator characters in `s`. */
  function SepCount(s: string, isSep: char -> bool): nat {
    if s == [] then 0 else (if isSep(s[0]) then 1 else 0) + SepCount(s[1..], isSep)
  }

  /** `components(separatedBy:)`: the maximal separator-free pieces of `s`, in
      order. A separator closes the current piece and opens a new one, so
      adjacent separators, and separators at either end, give empty pieces. */
  function Split(s: string, isSep: char -> bool): (parts: seq<string>)
    ensures |parts| >= 1
  {
    if s == [] then [""]
    else
      var rest := Split(s[1..], isSep);
      if isSep(s[0]) then [""] + rest else [[s[0]] + rest[0]] + rest[1..]
  }

  /** One step of Split: a leading separator starts an empty piece, any other
      leading character joins the first piece of the rest. */
  lemma SplitCons(x: char, t: string, isSep: char -> bool)
    ensures isSep(x) ==> Split([x] + t, isSep) == [""] + Split(t, isSep)
    ensures !isSep(x) ==>
      Split([x] + t, isSep) == [[x] + Split(t, isSep)[0]] + Split(t, isSep)[1..]
  {
    assert ([x] + t)[0] == x && ([x] + t)[1..] == t;
  }

  /** There is always one piece more than there are separators. */
  lemma {:induction false} SplitCount(s: string, isSep: char -> bool)
    ensures |Split(s, isSep)| == SepCount(s, isSep) + 1
  {
    if s != [] {
      SplitCount(s[1..], isSep);
    }
  }

  /** No piece holds a separator. */
  lemma {:induction false} SplitPiecesHaveNoSep(s: string, isSep: char -> bool)
    ensures forall k :: 0 <= k < |Split(s, isSep)| ==> NoSep(Split(s, isSep)[k], isSep)
  {
    if s != [] {
      var rest := Split(s[1..], isSep);
      SplitPiecesHaveNoSep(s[1..], isSep);
      var parts := Split(s, isSep);
      forall k | 0 <= k < |parts|
        ensures NoSep(parts[k], isSep)
      {
        if isSep(s[0]) {
          if k > 0 {
            assert parts[k] == rest[k - 1];
          }
        } else if k == 0 {
          var first := [s[0]] + rest[0];
          assert NoSep(rest[0], isSep);
          assert forall j :: 1 <= j < |first| ==> first[j] == rest[0][j - 1];
        } else {
          assert parts[k] == rest[k];
        }
      }
    }
  }

  /** The pieces joined back with `sep` between consecutive ones. */
  function Join(parts: seq<string>, sep: char): string
    requires |parts| >= 1
  {
    if |parts| == 1 then parts[0]
    else Join(parts[..|parts| - 1], sep) + [sep] + parts[|parts| - 1]
  }

  /** Appending one more line, followed by the separator, to a joined text that
      ends with the separator gives the join of the longer list. */
  lemma JoinAppend(text: string, parts: seq<string>, line: string, sep: char)
    requires |parts| >= 1 && text == Join(parts, sep) + [sep]
    ensures text + (line + [sep]) == Join(parts + [line], sep) + [sep]
  {
    var ps := parts + [line];
    assert ps[..|ps| - 1] == parts;
  }

  /** A text without separators is a single piece. */
  lemma {:induction false} SplitNoSep(a: string, isSep: char -> bool)
    requires NoSep(a, isSep)
    ensures Split(a, isSep) == [a]
  {
    if a != [] {
      SplitNoSep(a[1..], isSep);
      assert [a[0]] + a[1..] == a;
    }
  }

  /** Splitting distributes over a separator: the pieces of `a + [c] + b` are the
      pieces of `a` followed by the pieces of `b`. */
  lemma {:induction false} SplitConcat(a: string, c: char, b: string, isSep: char -> bool)
    requires isSep(c)
    ensures Split(a + [c] + b, isSep) == Split(a, isSep) + Split(b, isSep)
  {
    if a == [] {
      assert a + [c] + b == [c] + b;
      SplitCons(c, b, isSep);
    } else {
      var x, rest := a[0], a[1..];
      assert a == [x] + rest;
      assert a + [c] + b == [x] + (rest + [c] + b);
      SplitConcat(rest, c, b, isSep);
      SplitCons(x, rest + [c] + b, isSep);
      SplitCons(x, rest, isSep);
      var p, q := Split(rest, isSep), Split(b, isSep);
      if isSep(x) {
        ConcatAssoc([""], p, q);
      } else {
        assert (p + q)[0] == p[0] && (p + q)[1..] == p[1..] + q;
        ConcatAssoc([[x] + p[0]], p[1..], q);
      }
    }
  }

  /** Two separators in a row leave an empty piece between the pieces around them. */
  lemma SplitDoubleSeparator(a: string, c: char, b: string, isSep: char -> bool)
    requires isSep(c) && NoSep(a, isSep) && NoSep(b, isSep)
    ensures Split(a + [c, c] + b, isSep) == [a, "", b]
  {
    SplitNoSep(a, isSep);
    SplitNoSep([], isSep);
    SplitNoSep(b, isSep);
    assert a + [c, c] + b == a + [c] + ([] + [c] + b);
    SplitConcat(a, c, [] + [c] + b, isSep);
    SplitConcat([], c, b, isSep);
  }

  /** Round trip one way: separator-free pieces joined by a separator split back
      into the same pieces. */
  lemma {:induction false} SplitJoin(parts: seq<string>, sep: char, isSep: char -> bool)
    requires |parts| >= 1 && isSep(sep)
    requires forall k :: 0 <= k < |parts| ==> NoSep(parts[k], isSep)
    ensures Split(Join(parts, sep), isSep) == parts
  {
    var last := parts[|parts| - 1];
    SplitNoSep(last, isSep);
    if |parts| > 1 {
      var init := parts[..|parts| - 1];
      SplitJoin(init, sep, isSep);
      SplitConcat(Join(init, sep), sep, last, isSep);
      assert init + [last] == parts;
    }
  }

  lemma {:induction false} JoinCons(x: string, ps: seq<string>, sep: char)
    requires |ps| >= 1
    ensures Join([x] + ps, sep) == x + [sep] + Join(ps, sep)
  {
    var xs := [x] + ps;
    if |ps| == 1 {
      assert xs[..1] == [x];
    } else {
      assert xs[..|xs| - 1] == [x] + ps[..|ps| - 1];
      JoinCons(x, ps[..|ps| - 1], sep);
    }
  }

  /** A character put in front of the first piece comes first in the join. */
  lemma JoinHead(x: char, ps: seq<string>, sep: char)
    requires |ps| >= 1
    ensures Join([[x] + ps[0]] + ps[1..], sep) == [x] + Join(ps, sep)
  {
    if |ps| == 1 {
      assert [[x] + ps[0]] + ps[1..] == [[x] + ps[0]];
    } else {
      JoinCons([x] + ps[0], ps[1..], sep);
      JoinCons(ps[0], ps[1..], sep);
      assert [ps[0]] + ps[1..] == ps;
    }
  }

  /** Round trip the other way: when every separator in `s` is `sep`, joining the
      pieces with `sep` gives back `s`. */
  lemma {:induction false} JoinSplit(s: string, sep: char, isSep: char -> bool)
    requires isSep(sep)
    requires forall j :: 0 <= j < |s| && isSep(s[j]) ==> s[j] == sep
    ensures Join(Split(s, isSep), sep) == s
  {
    if s != [] {
      var x, t := s[0], s[1..];
      assert forall j :: 0 <= j < |t| && isSep(t[j]) ==> t[j] == sep by {
        assert forall j :: 0 <= j < |t| ==> t[j] == s[j + 1];
      }
      JoinSplit(t, sep, isSep);
      assert s == [x] + t;
      SplitCons(x, t, isSep);
      if isSep(x) {
        JoinCons("", Split(t, isSep), sep);
      } else {
        JoinHead(x, Split(t, isSep), sep);
      }
    }
  }

  // ---------------------------------------------------------------------------
  // Decimal text of integers

  predicate IsDigit(c: char) {
    '0' <= c <= '9'
  }

  predicate AllDigits(s: string) {
    forall j :: 0 <= j < |s| ==> IsDigit(s[j])
  }

  function DigitChar(d: nat): (c: char)
    requires d < 10
    ensures IsDigit(c) && c as int - '0' as int == d
  {
    ('0' as int + d) as char
  }

  function NatToString(n: nat): (s: string)
    ensures |s| >= 1 && AllDigits(s)
    ensures n >= 1 ==> s[0] != '0'
  {
    if n < 10 then [DigitChar(n)] else NatToString(n / 10) + [DigitChar(n % 10)]
  }

  /** Swift's `"\(n)"` for an `Int`: a minus sign for negatives, then the decimal
      digits without leading zeros. */
  function IntToString(i: int): (s: string)
    ensures |s| >= 1
    ensures forall j :: 0 <= j < |s| ==> IsDigit(s[j]) || (j == 0 && i < 0 && s[j] == '-')
    ensures i < 0 ==> s[0] == '-'
    ensures i >= 0 ==> |s| == 1 || s[0] != '0'
    ensures i < 0 ==> |s| >= 2 && s[1] != '0'
  {
    if i < 0 then "-" + NatToString(-i) else NatToString(i)
  }

  function DigitsValue(s: string): nat
    requires AllDigits(s)
  {
    if s == [] then 0 else 10 * DigitsValue(s[..|s| - 1]) + (s[|s| - 1] as int - '0' as int)
  }

  /** Reads a non-empty run of decimal digits. */
  function ParseNat(s: string): Option<nat> {
    if |s| >= 1 && AllDigits(s) then Some(DigitsValue(s)) else None
  }

  /** Reads an optionally negative decimal integer; anything else is rejected. */
  function ParseInt(s: string): Option<int> {
    if |s| >= 1 && s[0] == '-' then
      match ParseNat(s[1..])
      case Some(n) => var m: int := n; Some(-m)
      case None => None
    else
      ParseNat(s)
  }

  lemma {:induction false} DigitsValueOfNat(n: nat)
    ensures DigitsValue(NatToString(n)) == n
  {
    if n >= 10 {
      var s := NatToString(n);
      assert s[..|s| - 1] == NatToString(n / 10);
      DigitsValueOfNat(n / 10);
    }
  }

  /** The decimal text of an integer reads back as that integer. */
  lemma ParseIntToString(i: int)
    ensures ParseInt(IntToString(i)) == Some(i)
  {
    var n: nat := if i < 0 then -i else i;
    DigitsValueOfNat(n);
    if i < 0 {
      assert IntToString(i)[1..] == NatToString(n);
    }
  }

  /** A character that is neither a digit nor a minus sign makes the text unreadable. */
  lemma ParseIntRejects(s: string, j: nat)
    requires j < |s| && !IsDigit(s[j]) && s[j] != '-'
    ensures ParseInt(s) == None
  {
    if j > 0 && s[0] == '-' {
      assert s[1..][j - 1] == s[j];
    }
  }

  // ---------------------------------------------------------------------------
  // Capitalisation and first character

  /** Characters that start a new word for `capitalized` in this model: spaces,
      tabs and line terminators. Foundation also starts a word after other
      uncased characters, such as a hyphen or a digit; that is not modelled. */
  predicate IsWordDelimiter(c: char) {
    c == ' ' || c == '\t' || c == '\n' || c == '\r'
  }

  function UpperAscii(c: char): char {
    if 'a' <= c <= 'z' then (c as int - 32) as char else c
  }

  function LowerAscii(c: char): char {
    if 'A' <= c <= 'Z' then (c as int + 32) as char else c
  }

  /** `capitalized` applied to `s`, where `atWordStart` says whether the character
      before `s` ended a word. */
  function CapitalizedFrom(s: string, atWordStart: bool): (r: string)
    ensures |r| == |s|
    ensures forall j :: 0 <= j < |s| ==>
      r[j] == if IsWordDelimiter(s[j]) then s[j]
              else if (if j == 0 then atWordStart else IsWordDelimiter(s[j - 1])) then UpperAscii(s[j])
              else LowerAscii(s[j])
  {
    if s == [] then []
    else
      var c := if IsWordDelimiter(s[0]) then s[0]
               else if atWordStart then UpperAscii(s[0])
               else LowerAscii(s[0]);
      var rest := CapitalizedFrom(s[1..], IsWordDelimiter(s[0]));
      var r := [c] + rest;
      forall j | 0 <= j < |s|
        ensures r[j] == if IsWordDelimiter(s[j]) then s[j]
                        else if (if j == 0 then atWordStart else IsWordDelimiter(s[j - 1])) then UpperAscii(s[j])
                        else LowerAscii(s[j])
      {
        if j >= 1 {
          assert r[j] == rest[j - 1] && s[1..][j - 1] == s[j];
        }
        if j >= 2 {
          assert s[1..][j - 2] == s[j - 1];
        }
      }
      r
  }

  /** Foundation's `capitalized`, ASCII letters only: the first letter of each word
      in upper case and every other letter in lower case. */
  function Capitalized(s: string): string {
    CapitalizedFrom(s, true)
  }

  /** Swift's `first`. */
  function First(s: string): (c: Option<char>)
    ensures c.None? <==> s == []
    ensures c.Some? ==> c.value == s[0]
  {
    if s == [] then None else Some(s[0])
  }

  // ---------------------------------------------------------------------------
  // Small facts about sequences, stated once so that larger proofs stay cheap

  lemma NoSepConcat(a: string, b: string, isSep: char -> bool)
    requires NoSep(a, isSep) && NoSep(b, isSep)
    ensures NoSep(a + b, isSep)
  {
    assert forall j :: |a| <= j < |a + b| ==> (a + b)[j] == b[j - |a|];
  }

  lemma NoSepAll(a: seq<string>, b: seq<string>, isSep: char -> bool)
    requires forall k :: 0 <= k < |a| ==> NoSep(a[k], isSep)
    requires forall k :: 0 <= k < |b| ==> NoSep(b[k], isSep)
    ensures forall k :: 0 <= k < |a + b| ==> NoSep((a + b)[k], isSep)
  {
    forall k | 0 <= k < |a + b|
      ensures NoSep((a + b)[k], isSep)
    {
      if k >= |a| {
        assert (a + b)[k] == b[k - |a|];
      }
    }
  }

  lemma Concat<T>(a: seq<T>, b: seq<T>)
    ensures (a + b)[..|a|] == a && (a + b)[|a|..] == b
  {
  }

  lemma LastSplit<T>(s: seq<T>)
    requires |s| > 0
    ensures s[..|s| - 1] + [s[|s| - 1]] == s
  {
  }

  lemma TakeOneMore<T>(s: seq<T>, i: nat)
    requires i < |s|
    ensures s[..i + 1] == s[..i] + [s[i]]
  {
  }

  lemma TakeAll<T>(s: seq<T>)
    ensures s[..|s|] == s
  {
  }

  lemma AppendAssoc<T>(a: seq<T>, b: seq<T>, x: T)
    ensures a + (b + [x]) == (a + b) + [x]
  {
  }

  lemma ConcatAssoc<T>(x: seq<T>, y: seq<T>, z: seq<T>)
    ensures x + (y + z) == (x + y) + z
  {
  }
}
