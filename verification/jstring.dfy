/** The few `java.lang.String` operations the gateway relies on, with
    their Java meaning (case folding restricted to ASCII): `trim`, `indexOf`, `startsWith`, `contains`,
    ASCII `toLowerCase`/`equalsIgnoreCase`, splitting on newlines the way
    `StringTokenizer` does, `Integer.toString` for non-negative values, and
    the UTF-8 byte length of `getBytes()`. */
module JavaString {
  import opened Results

  // ---------------------------------------------------------------- trim

  /** `String.trim()` strips every leading and trailing char whose code is
      at most U+0020 (space and all control characters). */
  predicate IsTrimmable(c: char) {
    c <= ' '
  }

  predicate AllTrimmable(s: string) {
    forall k :: 0 <= k < |s| ==> IsTrimmable(s[k])
  }

  /** The first index at or after `i` whose char survives trimming, or `|s|`. */
  function TrimStart(s: string, i: nat): (j: nat)
    requires i <= |s|
    ensures i <= j <= |s|
    ensures forall k :: i <= k < j ==> IsTrimmable(s[k])
    ensures j < |s| ==> !IsTrimmable(s[j])
    decreases |s| - i
  {
    if i < |s| && IsTrimmable(s[i]) then TrimStart(s, i + 1) else i
  }

  /** The end of the kept part below `j`: chars at `e..j` are trimmable and
      the one before `e`, if it is above `lo`, is not. */
  function TrimEnd(s: string, lo: nat, j: nat): (e: nat)
    requires lo <= j <= |s|
    ensures lo <= e <= j
    ensures forall k :: e <= k < j ==> IsTrimmable(s[k])
    ensures lo < e ==> !IsTrimmable(s[e - 1])
    decreases j
  {
    if lo < j && IsTrimmable(s[j - 1]) then TrimEnd(s, lo, j - 1) else j
  }

  /** `s[i..i + |r|] == r` and everything around it is trimmable. */
  ghost predicate FramedBy(s: string, r: string, i: int) {
    && 0 <= i && i + |r| <= |s|
    && s[i..i + |r|] == r
    && (forall k :: 0 <= k < i ==> IsTrimmable(s[k]))
    && (forall k :: i + |r| <= k < |s| ==> IsTrimmable(s[k]))
  }

  /** `String.trim()`: drops the trimmable chars at both ends, so the
      result is empty or starts and ends with a char above U+0020. */
  function Trim(s: string): (r: string)
    ensures |r| <= |s|
    ensures r == [] || (!IsTrimmable(r[0]) && !IsTrimmable(r[|r| - 1]))
  {
    var i := TrimStart(s, 0);
    s[i..TrimEnd(s, i, |s|)]
  }

  /** What `trim()` keeps is a contiguous infix of the input, and everything
      it cuts off on either side is trimmable. */
  lemma TrimFramed(s: string)
    ensures FramedBy(s, Trim(s), TrimStart(s, 0))
  {
  }

  /** Trimming twice is trimming once; the description walk relies on this
      when it trims an already trimmed value at commit time. */
  lemma TrimIdempotent(s: string)
    ensures Trim(Trim(s)) == Trim(s)
  {
    var t := Trim(s);
    assert TrimStart(t, 0) == 0;
    assert TrimEnd(t, 0, |t|) == |t|;
    assert t[0..|t|] == t;
  }

  /** A string trims to the empty string exactly when every char in it is
      trimmable: this is Java's "blank line" test after `trim()`. */
  lemma TrimEmptyIff(s: string)
    ensures Trim(s) == [] <==> AllTrimmable(s)
  {
    var i := TrimStart(s, 0);
    var e := TrimEnd(s, i, |s|);
    if Trim(s) != [] {
      assert Trim(s)[0] == s[i];
    }
  }

  // --------------------------------------------------------- searching

  /** `s.startsWith(prefix)`. */
  predicate StartsWith(s: string, prefix: string) {
    |prefix| <= |s| && s[..|prefix|] == prefix
  }

  /** `s.indexOf(c, from)`: the first index at or after `from` holding `c`;
      `None` where Java returns -1 (including when `from` is past the end). */
  function IndexOf(s: string, c: char, from: nat): (r: Option<nat>)
    ensures r.None? <==> forall k :: from <= k < |s| ==> s[k] != c
    ensures r.Some? ==> from <= r.value < |s| && s[r.value] == c
    ensures r.Some? ==> forall k :: from <= k < r.value ==> s[k] != c
    decreases |s| - from
  {
    if from >= |s| then None
    else if s[from] == c then Some(from)
    else IndexOf(s, c, from + 1)
  }

  ghost predicate OccursAt(s: string, sub: string, i: int) {
    0 <= i && i + |sub| <= |s| && s[i..i + |sub|] == sub
  }

  /** `s.contains(sub)` restricted to matches starting at or after `from`. */
  function ContainsFrom(s: string, sub: string, from: nat): (r: bool)
    ensures r <==> exists i :: from <= i && OccursAt(s, sub, i)
    decreases |s| - from
  {
    if from + |sub| > |s| then
      assert forall i :: from <= i ==> !OccursAt(s, sub, i);
      false
    else if s[from..from + |sub|] == sub then
      assert OccursAt(s, sub, from);
      true
    else
      var r := ContainsFrom(s, sub, from + 1);
      assert forall i :: from <= i && OccursAt(s, sub, i) ==> i == from || from + 1 <= i;
      r
  }

  /** `s.contains(sub)`: some infix of `s` equals `sub`. */
  function Contains(s: string, sub: string): (r: bool)
    ensures r <==> exists i :: OccursAt(s, sub, i)
  {
    ContainsFrom(s, sub, 0)
  }

  // ------------------------------------------------------- case folding

  predicate IsUpper(c: char) {
    'A' <= c <= 'Z'
  }

  predicate IsLowerLetter(c: char) {
    'a' <= c <= 'z'
  }

  /** `Character.toLowerCase` on ASCII: an upper-case letter becomes the
      lower-case letter at the same place in the alphabet; every other
      char is kept. */
  function LowerChar(c: char): (r: char)
    ensures !IsUpper(r)
    ensures !IsUpper(c) ==> r == c
    ensures IsUpper(c) ==> IsLowerLetter(r) && r as int - 'a' as int == c as int - 'A' as int
  {
    if IsUpper(c) then (c as int - 'A' as int + 'a' as int) as char else c
  }

  /** `Character.toUpperCase` on ASCII, the mirror image of `LowerChar`. */
  function UpperChar(c: char): (r: char)
    ensures !IsLowerLetter(r)
    ensures !IsLowerLetter(c) ==> r == c
    ensures IsLowerLetter(c) ==> IsUpper(r) && r as int - 'A' as int == c as int - 'a' as int
  {
    if IsLowerLetter(c) then (c as int - 'a' as int + 'A' as int) as char else c
  }

  /** `String.toLowerCase()` restricted to ASCII letters: no upper-case
      letter is left, every other char stays where it was, and each
      upper-case letter is replaced by its lower-case partner. */
  function Lower(s: string): (r: string)
    ensures |r| == |s|
    ensures forall i :: 0 <= i < |r| ==> !IsUpper(r[i])
    ensures forall i :: 0 <= i < |s| && !IsUpper(s[i]) ==> r[i] == s[i]
    ensures forall i :: 0 <= i < |s| && IsUpper(s[i]) ==>
      IsLowerLetter(r[i]) && r[i] as int - 'a' as int == s[i] as int - 'A' as int
  {
    seq(|s|, i requires 0 <= i < |s| => LowerChar(s[i]))
  }

  /** Lower-casing twice is lower-casing once. */
  lemma LowerIdempotent(s: string)
    ensures Lower(Lower(s)) == Lower(s)
  {
  }

  /** `a.equalsIgnoreCase(b)` with ASCII case folding. */
  predicate EqualsIgnoreCase(a: string, b: string) {
    Lower(a) == Lower(b)
  }

  /** One pair of chars as `String.regionMatches(true, ...)` compares them:
      equal, equal once upper-cased, or equal once upper- and then
      lower-cased. */
  predicate CharsEqualIgnoreCase(x: char, y: char) {
    || x == y
    || UpperChar(x) == UpperChar(y)
    || LowerChar(UpperChar(x)) == LowerChar(UpperChar(y))
  }

  lemma CharsEqualIgnoreCaseIff(x: char, y: char)
    ensures CharsEqualIgnoreCase(x, y) <==> LowerChar(x) == LowerChar(y)
  {
  }

  /** `equalsIgnoreCase` as the JDK defines it (equal lengths, then every
      char pair matches ignoring case) is lower-casing both sides and
      comparing. */
  lemma EqualsIgnoreCaseByChars(a: string, b: string)
    ensures EqualsIgnoreCase(a, b) <==>
      |a| == |b| && forall i :: 0 <= i < |a| ==> CharsEqualIgnoreCase(a[i], b[i])
  {
    if |a| == |b| {
      forall i | 0 <= i < |a|
        ensures CharsEqualIgnoreCase(a[i], b[i]) <==> Lower(a)[i] == Lower(b)[i]
      {
        CharsEqualIgnoreCaseIff(a[i], b[i]);
      }
    }
  }

  /** `equalsIgnoreCase` is an equivalence, so comparing a tag name with a
      constant in either order (as the description walk does) means the same. */
  lemma EqualsIgnoreCaseEquivalence(a: string, b: string, c: string)
    ensures EqualsIgnoreCase(a, a)
    ensures EqualsIgnoreCase(a, b) ==> EqualsIgnoreCase(b, a)
    ensures EqualsIgnoreCase(a, b) && EqualsIgnoreCase(b, c) ==> EqualsIgnoreCase(a, c)
  {
  }

  // --------------------------------------------------------------- lines

  /** Joins lines with "\n" between consecutive ones. */
  function JoinLines(lines: seq<string>): string
    requires |lines| >= 1
  {
    if |lines| == 1 then lines[0] else lines[0] + "\n" + JoinLines(lines[1..])
  }

  /** Cuts `s` at every "\n"; the pieces, re-joined with "\n", are `s`. */
  function SplitLines(s: string): (r: seq<string>)
    ensures |r| >= 1
    ensures forall i :: 0 <= i < |r| ==> '\n' !in r[i]
    ensures JoinLines(r) == s
    decreases |s|
  {
    match IndexOf(s, '\n', 0)
    case None => [s]
    case Some(k) =>
      var rest := SplitLines(s[k + 1..]);
      assert '\n' !in s[..k] by {
        forall j | 0 <= j < k ensures s[..k][j] != '\n' { }
      }
      assert s == s[..k] + "\n" + s[k + 1..];
      [s[..k]] + rest
  }

  /** Drops the empty strings and keeps the order of the others. */
  function NonEmpty(lines: seq<string>): (r: seq<string>)
    ensures forall i :: 0 <= i < |r| ==> r[i] != []
    ensures forall t :: t in r <==> t in lines && t != []
  {
    if lines == [] then []
    else if lines[0] == [] then NonEmpty(lines[1..])
    else
      var rest := NonEmpty(lines[1..]);
      assert forall t :: t in lines <==> t == lines[0] || t in lines[1..];
      [lines[0]] + rest
  }

  /** The tokens `new StringTokenizer(s, "\n")` yields: the newline-free
      pieces of `s`, in order, with empty pieces skipped. */
  function Tokens(s: string): (r: seq<string>)
    ensures forall i :: 0 <= i < |r| ==> r[i] != [] && '\n' !in r[i]
    ensures forall t :: t in r <==> t in SplitLines(s) && t != []
  {
    var r := NonEmpty(SplitLines(s));
    assert forall i :: 0 <= i < |r| ==> r[i] in SplitLines(s);
    r
  }

  /** A newline-free string is one piece. */
  lemma SplitLinesSingle(a: string)
    requires '\n' !in a
    ensures SplitLines(a) == [a]
  {
  }

  /** The first piece ends at the first newline. */
  lemma SplitLinesCons(a: string, b: string)
    requires '\n' !in a
    ensures SplitLines(a + "\n" + b) == [a] + SplitLines(b)
  {
    var s := a + "\n" + b;
    assert s[|a|] == '\n';
    assert forall k :: 0 <= k < |a| ==> s[k] == a[k];
    assert IndexOf(s, '\n', 0) == Some(|a|);
    assert s[..|a|] == a;
    assert s[|a| + 1..] == b;
  }

  lemma NonEmptyCons(a: string, rest: seq<string>)
    ensures NonEmpty([a] + rest) == (if a == [] then [] else [a]) + NonEmpty(rest)
  {
    assert ([a] + rest)[0] == a;
    assert ([a] + rest)[1..] == rest;
  }

  /** A newline-free string yields itself as its only token, or no token
      when it is empty. */
  lemma TokensOfLine(a: string)
    requires '\n' !in a
    ensures Tokens(a) == if a == [] then [] else [a]
  {
    SplitLinesSingle(a);
    NonEmptyCons(a, []);
    assert [a] + [] == [a];
  }

  /** The tokenizer reads the text front to back: the first token is the
      text before the first newline (skipped when empty), and the rest are
      the tokens after it, in order. With `TokensOfLine` this fixes the
      tokens of every string, order and repeats included. */
  lemma TokensCons(a: string, b: string)
    requires '\n' !in a
    ensures Tokens(a + "\n" + b) == (if a == [] then [] else [a]) + Tokens(b)
  {
    SplitLinesCons(a, b);
    NonEmptyCons(a, SplitLines(b));
  }

  // ------------------------------------------------------------ decimal

  predicate IsDigit(c: char) {
    '0' <= c <= '9'
  }

  predicate AllDigits(s: string) {
    forall i :: 0 <= i < |s| ==> IsDigit(s[i])
  }

  /** The value of a string of decimal digits. */
  function ParseDecimal(s: string): nat
    requires AllDigits(s)
  {
    if s == [] then 0
    else 10 * ParseDecimal(s[..|s| - 1]) + (s[|s| - 1] as int - '0' as int)
  }

  /** The way Java spells a non-negative int: digits only, non-empty, and
      no leading zero unless the number is zero itself. */
  predicate IsCanonicalDecimal(s: string) {
    s != [] && AllDigits(s) && (s[0] == '0' ==> s == "0")
  }

  /** `"" + n` for a non-negative Java int: the canonical decimal spelling,
      reading back as `n`. */
  function Decimal(n: nat): (r: string)
    ensures IsCanonicalDecimal(r)
    ensures ParseDecimal(r) == n
  {
    var last := [('0' as int + n % 10) as char];
    if n < 10 then
      last
    else
      var front := Decimal(n / 10);
      var r := front + last;
      assert r[..|r| - 1] == front;
      r
  }

  /** Digits that do not start with '0' spell a positive number. */
  lemma {:induction false} LeadingDigitPositive(s: string)
    requires s != [] && AllDigits(s) && s[0] != '0'
    ensures ParseDecimal(s) >= 1
  {
    if |s| > 1 {
      var front := s[..|s| - 1];
      assert front[0] == s[0];
      LeadingDigitPositive(front);
    }
  }

  /** A number has exactly one canonical spelling: any canonical digit
      string is the `Decimal` of the number it spells. So a contract that
      asks for canonical digits reading back as `n` pins the text down to
      `"" + n`. */
  lemma {:induction false} CanonicalDecimalUnique(s: string)
    requires IsCanonicalDecimal(s)
    ensures Decimal(ParseDecimal(s)) == s
  {
    if |s| > 1 {
      var front := s[..|s| - 1];
      assert s[0] != '0';
      assert front[0] == s[0];
      assert AllDigits(front);
      LeadingDigitPositive(front);
      CanonicalDecimalUnique(front);
      var n := ParseDecimal(s);
      assert n / 10 == ParseDecimal(front) && n % 10 == s[|s| - 1] as int - '0' as int;
      assert front + [s[|s| - 1]] == s;
    }
  }

  // ---------------------------------------------------------- byte size

  /** How many bytes UTF-8 spends on one char. */
  function Utf8Width(c: char): nat {
    if c as int < 0x80 then 1
    else if c as int < 0x800 then 2
    else if c as int < 0x1_0000 then 3
    else 4
  }

  /** The length of `s.getBytes()` under UTF-8, the default charset. */
  function Utf8Length(s: string): nat {
    if s == [] then 0 else Utf8Width(s[0]) + Utf8Length(s[1..])
  }

  predicate IsAscii(s: string) {
    forall i :: 0 <= i < |s| ==> s[i] as int < 0x80
  }

  /** A UTF-8 encoding is never shorter than the string, and is exactly as
      long precisely when the string is ASCII. */
  lemma {:induction false} Utf8LengthBounds(s: string)
    ensures Utf8Length(s) >= |s|
    ensures Utf8Length(s) == |s| <==> IsAscii(s)
  {
    if s != [] {
      Utf8LengthBounds(s[1..]);
      assert IsAscii(s) <==> s[0] as int < 0x80 && IsAscii(s[1..]) by {
        if s[0] as int < 0x80 && IsAscii(s[1..]) {
          forall i | 0 <= i < |s| ensures s[i] as int < 0x80 {
            if i > 0 { assert s[i] == s[1..][i - 1]; }
          }
        }
      }
    }
  }
}
