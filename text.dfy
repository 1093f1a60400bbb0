/** The string operations of the Python runtime that build_db.py relies on:
    `str.split(sep)`, `sep.join(parts)`, `str.split()` on whitespace,
    `str.strip(chars)`, `str.replace(c, '')` and `int(text)`. */
module Text {
  import opened Wrappers

  // ---------------------------------------------------------------------------
  // Splitting on a separator
  // ---------------------------------------------------------------------------

  /** `sep` occurs in `s` starting at index `i`. */
  predicate MatchAt(s: string, sep: string, i: nat) {
    i + |sep| <= |s| && s[i..i + |sep|] == sep
  }

  /** No occurrence of `sep` in `s` starts before index `n`. */
  predicate NoMatchBefore(s: string, sep: string, n: nat) {
    forall i: nat :: i < n ==> !MatchAt(s, sep, i)
  }

  /** `sep` does not occur in `s` at all. */
  predicate Absent(s: string, sep: string) {
    NoMatchBefore(s, sep, |s|)
  }

  /** The leftmost occurrence of `sep` in `s` starts at index `k`. */
  predicate FirstMatchAt(s: string, sep: string, k: nat) {
    MatchAt(s, sep, k) && NoMatchBefore(s, sep, k)
  }

  /** Python's `s.split(sep)` for a non-empty separator: the pieces between the
      non-overlapping occurrences of `sep`, found from left to right. */
  function Split(s: string, sep: string): (parts: seq<string>)
    requires |sep| > 0
    ensures |parts| >= 1
    decreases |s|
  {
    if |s| < |sep| then [s]
    else if MatchAt(s, sep, 0) then [""] + Split(s[|sep|..], sep)
    else
      var rest := Split(s[1..], sep);
      [[s[0]] + rest[0]] + rest[1..]
  }

  /** Python's `sep.join(parts)` for a non-empty list. */
  function Join(parts: seq<string>, sep: string): string
    requires |parts| >= 1
    decreases |parts|
  {
    if |parts| == 1 then parts[0] else parts[0] + sep + Join(parts[1..], sep)
  }

  lemma JoinHead(x: string, parts: seq<string>, sep: string)
    requires |parts| >= 1
    ensures Join([x + parts[0]] + parts[1..], sep) == x + Join(parts, sep)
  {
    var p := [x + parts[0]] + parts[1..];
    if |parts| > 1 {
      assert p[1..] == parts[1..];
    }
  }

  /** Joining the pieces of a split with the same separator gives the string back. */
  lemma {:induction false} JoinSplit(s: string, sep: string)
    requires |sep| > 0
    ensures Join(Split(s, sep), sep) == s
    decreases |s|
  {
    if |s| < |sep| {
    } else if MatchAt(s, sep, 0) {
      var rest := Split(s[|sep|..], sep);
      JoinSplit(s[|sep|..], sep);
      var parts := [""] + rest;
      assert Split(s, sep) == parts;
      assert parts[1..] == rest;
      assert Join(parts, sep) == "" + sep + Join(rest, sep);
      assert s == s[..|sep|] + s[|sep|..];
    } else {
      var rest := Split(s[1..], sep);
      JoinSplit(s[1..], sep);
      assert Split(s, sep) == [[s[0]] + rest[0]] + rest[1..];
      JoinHead([s[0]], rest, sep);
      assert s == [s[0]] + s[1..];
    }
  }

  lemma NoMatchShift(s: string, sep: string, n: nat)
    requires |s| >= 1 && n >= 1 && NoMatchBefore(s, sep, n)
    ensures NoMatchBefore(s[1..], sep, n - 1)
  {
    forall i: nat | i < n - 1
      ensures !MatchAt(s[1..], sep, i)
    {
      assert !MatchAt(s, sep, i + 1);
      if i + |sep| <= |s| - 1 {
        assert s[1..][i..i + |sep|] == s[i + 1..i + 1 + |sep|];
      }
    }
  }

  /** A string without the separator splits into itself alone. */
  lemma {:induction false} SplitAbsent(s: string, sep: string)
    requires |sep| > 0 && Absent(s, sep)
    ensures Split(s, sep) == [s]
    decreases |s|
  {
    if |s| >= |sep| {
      assert !MatchAt(s, sep, 0);
      NoMatchShift(s, sep, |s|);
      SplitAbsent(s[1..], sep);
      assert [s[0]] + s[1..] == s;
    }
  }

  /** The first piece ends where the leftmost occurrence starts; the rest of
      the pieces are those of the text after that occurrence. */
  lemma {:induction false} SplitFirstMatch(s: string, sep: string, k: nat)
    requires |sep| > 0 && FirstMatchAt(s, sep, k)
    ensures Split(s, sep) == [s[..k]] + Split(s[k + |sep|..], sep)
    decreases k
  {
    if k > 0 {
      var t := s[1..];
      var tail := Split(s[k + |sep|..], sep);
      FirstMatchShift(s, sep, k);
      SplitFirstMatch(t, sep, k - 1);
      assert Split(t, sep) == [t[..k - 1]] + tail;
      SplitNoMatch(s, sep);
      ConsFirst(s[0], t[..k - 1], tail);
      calc {
        Split(s, sep);
        [[s[0]] + Split(t, sep)[0]] + Split(t, sep)[1..];
        [[s[0]] + t[..k - 1]] + tail;
        [s[..k]] + tail;
      }
    }
  }

  /** Without an occurrence at the start, the first character joins the first piece. */
  lemma SplitNoMatch(s: string, sep: string)
    requires |sep| > 0 && |s| >= |sep| && !MatchAt(s, sep, 0)
    ensures Split(s, sep) == [[s[0]] + Split(s[1..], sep)[0]] + Split(s[1..], sep)[1..]
  {
  }

  lemma ConsFirst(c: char, x: string, t: seq<string>)
    ensures var rest := [x] + t; [[c] + rest[0]] + rest[1..] == [[c] + x] + t
  {
    assert ([x] + t)[1..] == t;
  }

  /** Dropping the first character moves a leftmost occurrence one place left. */
  lemma FirstMatchShift(s: string, sep: string, k: nat)
    requires |sep| > 0 && k > 0 && FirstMatchAt(s, sep, k)
    ensures |s| >= |sep| && !MatchAt(s, sep, 0)
    ensures FirstMatchAt(s[1..], sep, k - 1)
    ensures s[1..][k - 1 + |sep|..] == s[k + |sep|..]
    ensures [s[0]] + s[1..][..k - 1] == s[..k]
  {
    assert !MatchAt(s, sep, 0);
    NoMatchShift(s, sep, k);
    assert s[1..][k - 1..k - 1 + |sep|] == s[k..k + |sep|];
  }

  /** When no occurrence starts before `k`, the first piece extends at least to `k`. */
  lemma {:induction false} SplitHeadPrefix(s: string, sep: string, k: nat)
    requires |sep| > 0 && k <= |s| && NoMatchBefore(s, sep, k)
    ensures s[..k] <= Split(s, sep)[0]
    decreases k
  {
    if k > 0 && |s| >= |sep| {
      assert !MatchAt(s, sep, 0);
      NoMatchShift(s, sep, k);
      SplitHeadPrefix(s[1..], sep, k - 1);
      assert s[..k] == [s[0]] + s[1..][..k - 1];
    }
  }

  lemma MatchInLeft(x: string, y: string, sep: string, i: nat)
    requires i + |sep| <= |x|
    ensures MatchAt(x + y, sep, i) <==> MatchAt(x, sep, i)
  {
    assert (x + y)[i..i + |sep|] == x[i..i + |sep|];
  }

  lemma MatchInRight(x: string, y: string, sep: string, i: nat)
    requires i >= |x|
    ensures MatchAt(x + y, sep, i) <==> MatchAt(y, sep, i - |x|)
  {
    if i + |sep| <= |x + y| {
      assert (x + y)[i..i + |sep|] == y[i - |x|..i - |x| + |sep|];
    }
  }

  /** A separator that lacks character `c` cannot occur across a `c`. */
  lemma NoMatchThrough(x: string, c: char, y: string, sep: string)
    requires |sep| > 0 && Absent(x, sep) && c !in sep
    ensures NoMatchBefore(x + [c] + y, sep, |x| + 1)
  {
    var s := x + [c] + y;
    forall i: nat | i < |x| + 1
      ensures !MatchAt(s, sep, i)
    {
      if i + |sep| <= |x| {
        assert s == x + ([c] + y);
        MatchInLeft(x, [c] + y, sep, i);
      } else if i + |sep| <= |s| {
        assert s[i..i + |sep|][|x| - i] == s[|x|] == c;
      }
    }
  }

  lemma CharAbsent(p: string, c: char)
    requires c !in p
    ensures Absent(p, [c])
  {
    forall i: nat | i < |p|
      ensures !MatchAt(p, [c], i)
    {
      assert p[i..i + 1] == [p[i]];
    }
  }

  /** Splitting on one character undoes joining with it, when no piece holds it. */
  lemma {:induction false} SplitJoinChar(parts: seq<string>, c: char)
    requires |parts| >= 1
    requires forall i :: 0 <= i < |parts| ==> c !in parts[i]
    ensures Split(Join(parts, [c]), [c]) == parts
    decreases |parts|
  {
    CharAbsent(parts[0], c);
    if |parts| == 1 {
      SplitAbsent(parts[0], [c]);
    } else {
      var rest := Join(parts[1..], [c]);
      var s := parts[0] + [c] + rest;
      var k := |parts[0]|;
      assert s[k..k + 1] == [c];
      forall i: nat | i < k
        ensures !MatchAt(s, [c], i)
      {
        assert s[i..i + 1] == [parts[0][i]];
      }
      SplitFirstMatch(s, [c], k);
      assert s[..k] == parts[0];
      assert s[k + 1..] == rest;
      SplitJoinChar(parts[1..], c);
      assert [parts[0]] + parts[1..] == parts;
    }
  }

  // ---------------------------------------------------------------------------
  // Splitting on runs of whitespace
  // ---------------------------------------------------------------------------

  /** The characters Python's `str.split()` and `str.strip()` treat as whitespace. */
  predicate IsSpace(c: char) {
    var n := c as int;
    (9 <= n <= 13) || (28 <= n <= 32) || n == 0x85 || n == 0xA0 || n == 0x1680 ||
    (0x2000 <= n <= 0x200A) || n == 0x2028 || n == 0x2029 || n == 0x202F ||
    n == 0x205F || n == 0x3000
  }

  predicate IsWord(w: string) {
    w != [] && forall i :: 0 <= i < |w| ==> !IsSpace(w[i])
  }

  predicate AllSpace(s: string) {
    forall i :: 0 <= i < |s| ==> IsSpace(s[i])
  }

  /** Length of the longest whitespace-free prefix of `s`. */
  function WordLength(s: string): (n: nat)
    ensures n <= |s|
    ensures forall i :: 0 <= i < n ==> !IsSpace(s[i])
    ensures n == |s| || IsSpace(s[n])
  {
    if s == [] || IsSpace(s[0]) then 0 else 1 + WordLength(s[1..])
  }

  /** Python's `s.split()`: the maximal runs of non-whitespace characters. */
  function Words(s: string): (ws: seq<string>)
    ensures forall i :: 0 <= i < |ws| ==> IsWord(ws[i])
    decreases |s|
  {
    if s == [] then []
    else if IsSpace(s[0]) then Words(s[1..])
    else
      var n := WordLength(s);
      [s[..n]] + Words(s[n..])
  }

  lemma {:induction false} WordsOfSpace(s: string)
    requires AllSpace(s)
    ensures Words(s) == []
    decreases |s|
  {
    if s != [] {
      WordsOfSpace(s[1..]);
    }
  }

  lemma {:induction false} WordLengthOf(w: string, rest: string)
    requires IsWord(w) && (rest == [] || IsSpace(rest[0]))
    ensures WordLength(w + rest) == |w|
    decreases |w|
  {
    assert (w + rest)[1..] == w[1..] + rest;
    if |w| > 1 {
      WordLengthOf(w[1..], rest);
    }
  }

  /** Splitting on whitespace undoes joining words with one whitespace
      character, whatever whitespace follows (such as the line's newline). */
  lemma {:induction false} WordsOfJoin(ws: seq<string>, c: char, tail: string)
    requires |ws| >= 1 && IsSpace(c) && AllSpace(tail)
    requires forall i :: 0 <= i < |ws| ==> IsWord(ws[i])
    ensures Words(Join(ws, [c]) + tail) == ws
    decreases |ws|
  {
    var w := ws[0];
    if |ws| == 1 {
      WordLengthOf(w, tail);
      assert (w + tail)[..|w|] == w;
      assert (w + tail)[|w|..] == tail;
      WordsOfSpace(tail);
    } else {
      var rest := Join(ws[1..], [c]) + tail;
      var s := Join(ws, [c]) + tail;
      assert s == w + ([c] + rest);
      WordLengthOf(w, [c] + rest);
      assert s[..|w|] == w;
      assert s[|w|..] == [c] + rest;
      assert ([c] + rest)[1..] == rest;
      WordsOfJoin(ws[1..], c, tail);
      assert [w] + ws[1..] == ws;
    }
  }

  // ---------------------------------------------------------------------------
  // Stripping, removing a character
  // ---------------------------------------------------------------------------

  /** `s` without its leading characters that `drop` accepts: a suffix of `s`
      (`DropLeadingEnds` says which one). */
  function DropLeading(s: string, drop: char -> bool): (r: string)
    ensures |r| <= |s| && r == s[|s| - |r|..]
    decreases |s|
  {
    if s != [] && drop(s[0]) then
      var r := DropLeading(s[1..], drop);
      assert s[1..][|s| - 1 - |r|..] == s[|s| - |r|..];
      r
    else s
  }

  /** Every dropped character is accepted by `drop`, and the first kept one
      is not. */
  lemma {:induction false} DropLeadingEnds(s: string, drop: char -> bool)
    ensures var r := DropLeading(s, drop);
      && (r == [] || !drop(r[0]))
      && forall i :: 0 <= i < |s| - |r| ==> drop(s[i])
    decreases |s|
  {
    if s != [] && drop(s[0]) {
      DropLeadingEnds(s[1..], drop);
      var r := DropLeading(s, drop);
      assert forall i :: 1 <= i < |s| - |r| ==> s[i] == s[1..][i - 1];
    }
  }

  /** `s` without its trailing characters that `drop` accepts: a prefix of
      `s` (`DropTrailingEnds` says which one). */
  function DropTrailing(s: string, drop: char -> bool): (r: string)
    ensures |r| <= |s| && r == s[..|r|]
    decreases |s|
  {
    if s != [] && drop(s[|s| - 1]) then
      var r := DropTrailing(s[..|s| - 1], drop);
      assert s[..|s| - 1][..|r|] == s[..|r|];
      r
    else s
  }

  /** Every dropped character is accepted by `drop`, and the last kept one
      is not. */
  lemma {:induction false} DropTrailingEnds(s: string, drop: char -> bool)
    ensures var r := DropTrailing(s, drop);
      && (r == [] || !drop(r[|r| - 1]))
      && forall i :: |r| <= i < |s| ==> drop(s[i])
    decreases |s|
  {
    if s != [] && drop(s[|s| - 1]) {
      DropTrailingEnds(s[..|s| - 1], drop);
      var r := DropTrailing(s, drop);
      assert forall i :: |r| <= i < |s| - 1 ==> s[i] == s[..|s| - 1][i];
    }
  }

  /** Python's `s.strip(chars)`: drop the characters `drop` accepts from both ends. */
  function Strip(s: string, drop: char -> bool): string {
    DropTrailing(DropLeading(s, drop), drop)
  }

  lemma StripNothing(s: string, drop: char -> bool)
    requires s != [] && !drop(s[0]) && !drop(s[|s| - 1])
    ensures Strip(s, drop) == s
  {
  }

  /** Python's `s.replace(c, '')`. */
  function RemoveChar(s: string, c: char): (r: string)
    ensures c !in r
    ensures |r| <= |s|
    ensures c !in s ==> r == s
    ensures forall x :: x != c ==> multiset(r)[x] == multiset(s)[x]
  {
    if s == [] then []
    else
      assert s == [s[0]] + s[1..];
      (if s[0] == c then [] else [s[0]]) + RemoveChar(s[1..], c)
  }

  /** Removing a character from a single character keeps it exactly when it
      is a different character. */
  lemma RemoveCharSingle(x: char, c: char)
    ensures RemoveChar([x], c) == if x == c then [] else [x]
  {
    assert [x][1..] == [];
  }

  /** Removal works piece by piece: together with `RemoveCharSingle` this
      fixes the result, order included. */
  lemma {:induction false} RemoveCharConcat(a: string, b: string, c: char)
    ensures RemoveChar(a + b, c) == RemoveChar(a, c) + RemoveChar(b, c)
    decreases |a|
  {
    if a == [] {
      assert a + b == b;
    } else {
      assert (a + b)[0] == a[0];
      assert (a + b)[1..] == a[1..] + b;
      RemoveCharConcat(a[1..], b, c);
    }
  }

  // ---------------------------------------------------------------------------
  // Integers in decimal
  // ---------------------------------------------------------------------------

  predicate IsDigit(c: char) {
    '0' <= c <= '9'
  }

  predicate AllDigits(s: string) {
    forall i :: 0 <= i < |s| ==> IsDigit(s[i])
  }

  function DigitValue(c: char): nat
    requires IsDigit(c)
  {
    c as int - '0' as int
  }

  function DigitChar(d: nat): char
    requires d < 10
  {
    ('0' as int + d) as char
  }

  /** The value of a string of decimal digits, read from the left. */
  function DigitsValue(s: string): nat
    requires AllDigits(s)
    decreases |s|
  {
    if s == [] then 0 else 10 * DigitsValue(s[..|s| - 1]) + DigitValue(s[|s| - 1])
  }

  /** An optional sign followed by at least one decimal digit. */
  function SignedDigits(t: string): Option<int> {
    if |t| >= 2 && (t[0] == '+' || t[0] == '-') && AllDigits(t[1..]) then
      var v: int := DigitsValue(t[1..]);
      Some(if t[0] == '-' then -v else v)
    else if |t| >= 1 && AllDigits(t) then
      Some(DigitsValue(t))
    else
      None
  }

  /** The whitespace `int()` skips around its digits: the ASCII characters
      ` \t\n\v\f\r` and the non-ASCII characters `str.isspace` accepts. The
      ASCII separators U+001C to U+001F count as whitespace for `str.split()`
      and `str.strip()` but not for `int()`. */
  predicate IsIntSpace(c: char) {
    var n := c as int;
    (9 <= n <= 13) || n == 32 || n == 0x85 || n == 0xA0 || n == 0x1680 ||
    (0x2000 <= n <= 0x200A) || n == 0x2028 || n == 0x2029 || n == 0x202F ||
    n == 0x205F || n == 0x3000
  }

  /** Python's `int(text)` on ASCII digits: surrounding whitespace is ignored,
      an optional sign precedes at least one decimal digit; anything else
      fails. */
  function ParseInt(s: string): Option<int> {
    SignedDigits(Strip(s, IsIntSpace))
  }

  /** A file separator before the digits makes `int()` fail. */
  lemma ParseIntRejectsSeparator(d: char)
    requires IsDigit(d)
    ensures IsSpace(28 as char)
    ensures ParseInt([28 as char, d]) == None
  {
    var s := [28 as char, d];
    assert forall c :: IsIntSpace(c) <==> IsSpace(c) && !(28 <= c as int <= 31);
    assert !IsIntSpace(s[0]) && !IsIntSpace(s[1]);
    StripNothing(s, IsIntSpace);
    assert !IsDigit(s[0]) && s[0] != '+' && s[0] != '-';
  }

  /** Decimal digits of a natural number, without leading zeros. */
  function Decimal(n: nat): (s: string)
    ensures |s| >= 1 && AllDigits(s)
    decreases n
  {
    if n < 10 then [DigitChar(n)] else Decimal(n / 10) + [DigitChar(n % 10)]
  }

  /** Python's `str(n)` for an integer. */
  function IntToString(n: int): string {
    if n < 0 then "-" + Decimal(-n) else Decimal(n)
  }

  lemma {:induction false} DecimalValue(n: nat)
    ensures DigitsValue(Decimal(n)) == n
    decreases n
  {
    var s := Decimal(n);
    if n >= 10 {
      DecimalValue(n / 10);
      assert s[..|s| - 1] == Decimal(n / 10);
    }
  }

  /** `int` reads back what `str` writes. */
  lemma ParseIntToString(n: int)
    ensures ParseInt(IntToString(n)) == Some(n)
  {
    var s := IntToString(n);
    IntToStringEnds(n);
    StripNothing(s, IsIntSpace);
    SignedDigitsOfString(n);
  }

  /** `str(n)` starts and ends with a character that is not whitespace. */
  lemma IntToStringEnds(n: int)
    ensures var s := IntToString(n); s != [] && !IsIntSpace(s[0]) && !IsIntSpace(s[|s| - 1])
  {
    var d := Decimal(if n < 0 then -n else n);
    assert IsDigit(d[0]) && IsDigit(d[|d| - 1]);
  }

  lemma SignedDigitsOfString(n: int)
    ensures SignedDigits(IntToString(n)) == Some(n)
  {
    var s := IntToString(n);
    var d := Decimal(if n < 0 then -n else n);
    DecimalValue(if n < 0 then -n else n);
    if n < 0 {
      assert s[1..] == d;
    }
  }
}
