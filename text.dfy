/** The Python `str` operations the bot relies on, over `string` (a sequence of
    Unicode scalar values): whitespace stripping, ASCII lower-casing, digit
    parsing and printing, splitting, joining, replacing and ordering. */
module Text {

  datatype Option<T> = None | Some(value: T)

  // ---------------------------------------------------------------------
  // Characters

  /** Python's `str.isspace()` on one character. */
  predicate IsSpace(c: char)
  {
    || c == ' '
    || ('\t' <= c <= '\r')
    || ('\U{1C}' <= c <= '\U{1F}')
    || c == '\U{85}' || c == '\U{A0}' || c == '\U{1680}'
    || ('\U{2000}' <= c <= '\U{200A}')
    || c == '\U{2028}' || c == '\U{2029}' || c == '\U{202F}'
    || c == '\U{205F}' || c == '\U{3000}'
  }

  predicate IsDigit(c: char)
  {
    '0' <= c <= '9'
  }

  function LowerChar(c: char): char
  {
    if 'A' <= c <= 'Z' then (c as int + 32) as char else c
  }

  /** `str.lower()` on ASCII letters. */
  function Lower(s: string): string
  {
    seq(|s|, i requires 0 <= i < |s| => LowerChar(s[i]))
  }

  /** `lower()` leaves digits alone, so it passes over a digit suffix. */
  lemma LowerDigitSuffix(a: string, d: string)
    requires forall i :: 0 <= i < |d| ==> IsDigit(d[i])
    ensures Lower(a + d) == Lower(a) + d
  {
    forall i | 0 <= i < |a + d|
      ensures Lower(a + d)[i] == (Lower(a) + d)[i]
    {
      if i >= |a| {
        assert (a + d)[i] == d[i - |a|];
      }
    }
  }

  lemma LowerIdempotent(s: string)
    ensures Lower(Lower(s)) == Lower(s)
  {
  }

  predicate StartsWith(s: string, prefix: string)
  {
    |prefix| <= |s| && s[..|prefix|] == prefix
  }

  // ---------------------------------------------------------------------
  // Stripping

  /** `str.lstrip()`. */
  function StripLeft(s: string): string
    decreases |s|
  {
    if |s| > 0 && IsSpace(s[0]) then StripLeft(s[1..]) else s
  }

  /** `str.rstrip()`. */
  function StripRight(s: string): string
    decreases |s|
  {
    if |s| > 0 && IsSpace(s[|s| - 1]) then StripRight(s[..|s| - 1]) else s
  }

  /** `str.strip()`. */
  function Strip(s: string): string
  {
    StripRight(StripLeft(s))
  }

  /** `lstrip()` keeps a suffix, dropping only whitespace, and the suffix
      kept does not start with whitespace. */
  lemma {:induction false} StripLeftSuffix(s: string)
    ensures var r := StripLeft(s);
      && |r| <= |s| && r == s[|s| - |r|..]
      && (forall i :: 0 <= i < |s| - |r| ==> IsSpace(s[i]))
      && (r == [] || !IsSpace(r[0]))
    decreases |s|
  {
    if |s| > 0 && IsSpace(s[0]) {
      StripLeftSuffix(s[1..]);
    }
  }

  /** `rstrip()` keeps a prefix, dropping only whitespace, and the prefix
      kept does not end with whitespace. */
  lemma {:induction false} StripRightPrefix(s: string)
    ensures var r := StripRight(s);
      && |r| <= |s| && r == s[..|r|]
      && (forall i :: |r| <= i < |s| ==> IsSpace(s[i]))
      && (r == [] || !IsSpace(r[|r| - 1]))
    decreases |s|
  {
    if |s| > 0 && IsSpace(s[|s| - 1]) {
      StripRightPrefix(s[..|s| - 1]);
    }
  }

  /** `strip()` keeps the slice s[a..b] between a whitespace-only head and a
      whitespace-only tail, and that slice neither starts nor ends with
      whitespace. */
  lemma StripSlice(s: string)
    ensures |StripLeft(s)| <= |s|
    ensures var r := Strip(s); var a := |s| - |StripLeft(s)|;
      && a + |r| <= |s| && r == s[a..a + |r|]
      && (forall i :: 0 <= i < a ==> IsSpace(s[i]))
      && (forall i :: a + |r| <= i < |s| ==> IsSpace(s[i]))
      && (r == [] || (!IsSpace(r[0]) && !IsSpace(r[|r| - 1])))
  {
    var l := StripLeft(s);
    StripLeftSuffix(s);
    StripRightPrefix(l);
    var r := StripRight(l);
    if r != [] {
      assert r[0] == l[0];
    }
  }

  /** A string without whitespace at either end is its own `strip()`. */
  lemma StripTrimmed(s: string)
    requires s == [] || (!IsSpace(s[0]) && !IsSpace(s[|s| - 1]))
    ensures Strip(s) == s
  {
  }

  // ---------------------------------------------------------------------
  // Decimal numbers

  /** `str.isdigit()` on ASCII digits: non-empty and all digits. */
  predicate IsDigits(s: string)
  {
    |s| > 0 && forall i :: 0 <= i < |s| ==> IsDigit(s[i])
  }

  /** `int(s)` for a string of ASCII digits. */
  function DigitsValue(s: string): nat
    requires forall i :: 0 <= i < |s| ==> IsDigit(s[i])
    decreases |s|
  {
    if s == [] then 0
    else
      var d := s[|s| - 1];
      assert IsDigit(d);
      DigitsValue(s[..|s| - 1]) * 10 + (d as int - '0' as int)
  }

  function DigitChar(d: nat): char
    requires d < 10
  {
    ('0' as int + d) as char
  }

  /** `str(n)` for a natural number. */
  function NatToString(n: nat): string
    decreases n
  {
    if n < 10 then [DigitChar(n)] else NatToString(n / 10) + [DigitChar(n % 10)]
  }

  /** `int(str(n)) == n`. */
  lemma {:induction false} NatToStringRoundTrip(n: nat)
    ensures IsDigits(NatToString(n)) && DigitsValue(NatToString(n)) == n
    decreases n
  {
    if n >= 10 {
      NatToStringRoundTrip(n / 10);
      var s := NatToString(n);
      assert s[..|s| - 1] == NatToString(n / 10);
    }
  }

  /** `str(i)` for an integer. */
  function IntToString(i: int): string
  {
    if i < 0 then "-" + NatToString(-i) else NatToString(i)
  }

  /** `int(s)`: surrounding whitespace, an optional sign, then ASCII digits. */
  function ParseInt(s: string): Option<int>
  {
    var t := Strip(s);
    if |t| > 0 && (t[0] == '-' || t[0] == '+') then
      if IsDigits(t[1..]) then
        var v: int := DigitsValue(t[1..]);
        Some(if t[0] == '-' then -v else v)
      else None
    else if IsDigits(t) then Some(DigitsValue(t))
    else None
  }

  /** `int(str(i)) == i`. */
  lemma ParseIntRoundTrip(i: int)
    ensures ParseInt(IntToString(i)) == Some(i)
  {
    var n: nat := if i < 0 then -i else i;
    NatToStringRoundTrip(n);
    var d := NatToString(n);
    var s := IntToString(i);
    assert !IsSpace(d[0]) && !IsSpace(d[|d| - 1]);
    if i < 0 {
      assert s == "-" + d && s[1..] == d;
      StripTrimmed(s);
    } else {
      StripTrimmed(s);
    }
  }

  // ---------------------------------------------------------------------
  // Searching, splitting, joining

  /** The index of the first `c` in `s`, or `|s|` when there is none. */
  function Find(s: string, c: char): (i: nat)
    ensures i <= |s|
    ensures i < |s| ==> s[i] == c
    ensures forall j :: 0 <= j < i ==> s[j] != c
    decreases |s|
  {
    if s == [] then 0 else if s[0] == c then 0 else 1 + Find(s[1..], c)
  }

  /** `str.partition(sep)` for a one-character separator: the text before
      the first `sep` and the text after it ("" when `sep` does not occur). */
  function Partition(s: string, sep: char): (string, string)
  {
    var i := Find(s, sep);
    (s[..i], if i < |s| then s[i + 1..] else "")
  }

  /** `str.lstrip(c)` for one character. */
  function StripLeading(s: string, c: char): string
    decreases |s|
  {
    if |s| > 0 && s[0] == c then StripLeading(s[1..], c) else s
  }

  /** `str.split(sep)` for a one-character separator. */
  function Split(s: string, sep: char): (r: seq<string>)
    ensures |r| >= 1
    decreases |s|
  {
    if s == [] then [""]
    else
      var tail := Split(s[1..], sep);
      if s[0] == sep then [""] + tail else [[s[0]] + tail[0]] + tail[1..]
  }

  /** `sep.join(parts)`. */
  function Join(parts: seq<string>, sep: string): string
    decreases |parts|
  {
    if |parts| == 0 then "" else if |parts| == 1 then parts[0]
    else parts[0] + sep + Join(parts[1..], sep)
  }

  /** Splitting and joining again on the same separator gives the string
      back, and no piece contains the separator. */
  lemma {:induction false} JoinSplit(s: string, sep: char)
    ensures Join(Split(s, sep), [sep]) == s
    ensures forall i :: 0 <= i < |Split(s, sep)| ==> sep !in Split(s, sep)[i]
    decreases |s|
  {
    if s != [] {
      var tail := Split(s[1..], sep);
      JoinSplit(s[1..], sep);
      if s[0] == sep {
        assert Split(s, sep) == [""] + tail;
        assert ([""] + tail)[1..] == tail;
        assert s == [sep] + s[1..];
      } else {
        var parts := Split(s, sep);
        assert parts == [[s[0]] + tail[0]] + tail[1..];
        if |tail| == 1 {
          assert s == [s[0]] + tail[0];
        } else {
          assert parts[1..] == tail[1..];
          assert Join(tail, [sep]) == tail[0] + [sep] + Join(tail[1..], [sep]);
          assert s == [s[0]] + s[1..];
        }
        forall i | 0 <= i < |parts| ensures sep !in parts[i] {
          if i > 0 {
            assert parts[i] == tail[i];
          }
        }
      }
    }
  }

  /** `list(filter(lambda x: x != "", parts))`. */
  function NonEmpty(parts: seq<string>): (r: seq<string>)
    ensures forall i :: 0 <= i < |r| ==> r[i] != "" && r[i] in parts
    ensures forall p :: p in parts && p != "" ==> p in r
    decreases |parts|
  {
    if parts == [] then []
    else (if parts[0] == "" then [] else [parts[0]]) + NonEmpty(parts[1..])
  }

  // ---------------------------------------------------------------------
  // Removing and replacing

  /** `s` with every character of `cs` removed (`s.replace(c, "")` for each). */
  function Without(s: string, cs: seq<char>): string
    decreases |s|
  {
    if s == [] then [] else (if s[0] in cs then [] else [s[0]]) + Without(s[1..], cs)
  }

  /** What `Without` keeps: exactly the characters of `s` outside `cs`, in
      order. */
  lemma {:induction false} WithoutSpec(s: string, cs: seq<char>)
    ensures forall c :: c in Without(s, cs) <==> c in s && c !in cs
    ensures |Without(s, cs)| <= |s|
    ensures (forall c :: c in s ==> c !in cs) ==> Without(s, cs) == s
    decreases |s|
  {
    if s != [] {
      WithoutSpec(s[1..], cs);
      assert s == [s[0]] + s[1..];
    }
  }

  /** Removing one more character after removing `cs` is removing `cs + [c]`:
      the step of each sanitising loop. */
  lemma {:induction false} WithoutStep(s: string, cs: seq<char>, c: char)
    ensures Without(Without(s, cs), [c]) == Without(s, cs + [c])
    decreases |s|
  {
    if s != [] {
      WithoutStep(s[1..], cs, c);
      var head: string := if s[0] in cs then [] else [s[0]];
      WithoutConcat(head, Without(s[1..], cs), [c]);
    }
  }

  lemma {:induction false} WithoutConcat(a: string, b: string, cs: seq<char>)
    ensures Without(a + b, cs) == Without(a, cs) + Without(b, cs)
    decreases |a|
  {
    if a != [] {
      assert (a + b)[0] == a[0] && (a + b)[1..] == a[1..] + b;
      WithoutConcat(a[1..], b, cs);
      var head: string := if a[0] in cs then [] else [a[0]];
      assert Without(a + b, cs) == head + Without(a[1..] + b, cs);
      assert Without(a, cs) == head + Without(a[1..], cs);
    } else {
      assert a + b == b;
    }
  }

  /** `re.sub(' +', ' ', s)`: every run of spaces becomes one space. */
  function CollapseSpaces(s: string): string
    decreases |s|
  {
    if |s| < 2 then s
    else if s[0] == ' ' && s[1] == ' ' then CollapseSpaces(s[1..])
    else [s[0]] + CollapseSpaces(s[1..])
  }

  /** After collapsing no two spaces are adjacent, the non-space text is
      exactly the original's, the words are kept and a trailing space stays:
      each run of spaces leaves exactly one space. */
  lemma CollapseSpacesSpec(s: string)
    ensures var r := CollapseSpaces(s);
      && (|s| > 0 ==> |r| > 0 && r[0] == s[0])
      && (forall i :: 0 <= i < |r| - 1 ==> !(r[i] == ' ' && r[i + 1] == ' '))
      && Without(r, " ") == Without(s, " ")
      && NonEmpty(Split(r, ' ')) == NonEmpty(Split(s, ' '))
      && ((|r| > 0 && r[|r| - 1] == ' ') <==> (|s| > 0 && s[|s| - 1] == ' '))
  {
    CollapseSpacesAdjacent(s);
    CollapseSpacesWords(s);
  }

  /** The induction behind the word clauses of `CollapseSpacesSpec`: the
      first word is unchanged, and so are the words after it. */
  lemma {:induction false} CollapseSpacesWords(s: string)
    ensures var r := CollapseSpaces(s);
      && Split(r, ' ')[0] == Split(s, ' ')[0]
      && NonEmpty(Split(r, ' ')[1..]) == NonEmpty(Split(s, ' ')[1..])
      && ((|r| > 0 && r[|r| - 1] == ' ') <==> (|s| > 0 && s[|s| - 1] == ' '))
    decreases |s|
  {
    if |s| >= 2 {
      var s1 := s[1..];
      var t := CollapseSpaces(s1);
      CollapseSpacesWords(s1);
      CollapseSpacesAdjacent(s1);
      var r := CollapseSpaces(s);
      assert Split(s, ' ') == if s[0] == ' ' then [""] + Split(s1, ' ')
        else [[s[0]] + Split(s1, ' ')[0]] + Split(s1, ' ')[1..];
      if s[0] == ' ' && s[1] == ' ' {
        assert Split(s1, ' ') == [""] + Split(s1[1..], ' ');
      } else {
        assert r == [s[0]] + t && r[1..] == t;
        assert Split(r, ' ') == if s[0] == ' ' then [""] + Split(t, ' ')
          else [[s[0]] + Split(t, ' ')[0]] + Split(t, ' ')[1..];
      }
    }
  }

  /** No two spaces stay adjacent; the first character and the non-space
      text are kept. */
  lemma {:induction false} CollapseSpacesAdjacent(s: string)
    ensures var r := CollapseSpaces(s);
      && (|s| > 0 ==> |r| > 0 && r[0] == s[0])
      && (forall i :: 0 <= i < |r| - 1 ==> !(r[i] == ' ' && r[i + 1] == ' '))
      && Without(r, " ") == Without(s, " ")
    decreases |s|
  {
    if |s| >= 2 {
      CollapseSpacesAdjacent(s[1..]);
      var t := CollapseSpaces(s[1..]);
      if s[0] == ' ' && s[1] == ' ' {
        assert Without(s, " ") == Without(s[1..], " ");
      } else {
        var r := [s[0]] + t;
        assert r[1..] == t;
        assert forall i :: 1 <= i < |r| - 1 ==> r[i] == t[i - 1] && r[i + 1] == t[i];
      }
    }
  }

  /** `s.replace(pat, rep)`: left-to-right, non-overlapping. */
  function ReplaceAll(s: string, pat: string, rep: string): string
    requires |pat| > 0
    decreases |s|
  {
    if |s| < |pat| then s
    else if s[..|pat|] == pat then rep + ReplaceAll(s[|pat|..], pat, rep)
    else [s[0]] + ReplaceAll(s[1..], pat, rep)
  }

  /** `'{:<w}'.format(s)`: left-justified, padded with spaces to width `w`. */
  function PadRight(s: string, w: nat): string
  {
    if |s| >= w then s else s + seq(w - |s|, _ => ' ')
  }

  // ---------------------------------------------------------------------
  // Ordering and sorting

  /** Python's `a <= b` on strings: code-point lexicographic order. */
  predicate LessEq(a: string, b: string)
    decreases |a|
  {
    a == [] || (b != [] && (a[0] < b[0] || (a[0] == b[0] && LessEq(a[1..], b[1..]))))
  }

  lemma {:induction false} LessEqTotal(a: string, b: string)
    ensures LessEq(a, b) || LessEq(b, a)
    decreases |a|
  {
    if a != [] && b != [] && a[0] == b[0] {
      LessEqTotal(a[1..], b[1..]);
    }
  }

  lemma {:induction false} LessEqTrans(a: string, b: string, c: string)
    requires LessEq(a, b) && LessEq(b, c)
    ensures LessEq(a, c)
    decreases |a|
  {
    if a != [] && a[0] == b[0] && b[0] == c[0] {
      LessEqTrans(a[1..], b[1..], c[1..]);
    }
  }

  predicate SortedByLower(s: seq<string>)
  {
    forall i, j :: 0 <= i < j < |s| ==> LessEq(Lower(s[i]), Lower(s[j]))
  }

  /** Inserts `x` after every element whose key is at most `x`'s, so that
      elements of equal key keep their order. */
  function InsertByLower(x: string, s: seq<string>): seq<string>
    decreases |s|
  {
    if s == [] then [x]
    else if LessEq(Lower(s[0]), Lower(x)) then [s[0]] + InsertByLower(x, s[1..])
    else [x] + s
  }

  /** Every key in the result of an insertion is bounded below by any
      common lower bound of `x` and the keys of `s`. */
  lemma {:induction false} InsertByLowerBound(x: string, s: seq<string>, lo: string)
    requires LessEq(lo, Lower(x))
    requires forall k :: 0 <= k < |s| ==> LessEq(lo, Lower(s[k]))
    ensures forall k :: 0 <= k < |InsertByLower(x, s)| ==> LessEq(lo, Lower(InsertByLower(x, s)[k]))
    decreases |s|
  {
    if s != [] && LessEq(Lower(s[0]), Lower(x)) {
      InsertByLowerBound(x, s[1..], lo);
      var r := InsertByLower(x, s);
      assert forall k :: 1 <= k < |r| ==> r[k] == InsertByLower(x, s[1..])[k - 1];
    }
  }

  /** Inserting adds exactly `x`. */
  lemma {:induction false} InsertByLowerPermutes(x: string, s: seq<string>)
    ensures multiset(InsertByLower(x, s)) == multiset(s) + multiset{x}
    decreases |s|
  {
    if s != [] && LessEq(Lower(s[0]), Lower(x)) {
      InsertByLowerPermutes(x, s[1..]);
      assert s == [s[0]] + s[1..];
    }
  }

  /** Inserting into an ordered list keeps it ordered. */
  lemma {:induction false} InsertByLowerSorted(x: string, s: seq<string>)
    requires SortedByLower(s)
    ensures SortedByLower(InsertByLower(x, s))
    decreases |s|
  {
    if s == [] {
    } else if LessEq(Lower(s[0]), Lower(x)) {
      var tail := s[1..];
      InsertByLowerSorted(x, tail);
      InsertByLowerBound(x, tail, Lower(s[0]));
      var t := InsertByLower(x, tail);
      var r := [s[0]] + t;
      forall i, j | 0 <= i < j < |r|
        ensures LessEq(Lower(r[i]), Lower(r[j]))
      {
        assert r[j] == t[j - 1];
        if i > 0 {
          assert r[i] == t[i - 1];
        }
      }
    } else {
      var r := [x] + s;
      LessEqTotal(Lower(s[0]), Lower(x));
      forall i, j | 0 <= i < j < |r|
        ensures LessEq(Lower(r[i]), Lower(r[j]))
      {
        assert r[j] == s[j - 1];
        if i > 0 {
          assert r[i] == s[i - 1];
        } else if j > 1 {
          LessEqTrans(Lower(x), Lower(s[0]), Lower(s[j - 1]));
        }
      }
    }
  }

  /** `sorted(s, key=str.lower)`: a stable sort on the lower-cased key; the
      result is ordered and is a permutation of `s`. */
  function SortByLower(s: seq<string>): (r: seq<string>)
    ensures SortedByLower(r)
    ensures multiset(r) == multiset(s)
    decreases |s|
  {
    if s == [] then []
    else
      var init := s[..|s| - 1];
      var sorted := SortByLower(init);
      InsertByLowerSorted(s[|s| - 1], sorted);
      InsertByLowerPermutes(s[|s| - 1], sorted);
      assert s == init + [s[|s| - 1]];
      InsertByLower(s[|s| - 1], sorted)
  }
}
