/**
  The parts of Python's `str` behaviour the schedule code relies on: whitespace
  stripping, case mapping, splitting and joining, `int()` on text, integer
  formatting with `02d`, `zfill` and code-point ordering of strings.
*/
module Text {
  import opened Wrappers

  // ---------------------------------------------------------------- whitespace

  /** `str.isspace()` for one character: Python's Unicode whitespace set. */
  predicate IsSpace(c: char)
  {
    ('\t' <= c <= '\r') || ('\U{1C}' <= c <= ' ') || c == '\U{85}' || c == '\U{A0}'
    || c == '\U{1680}' || ('\U{2000}' <= c <= '\U{200A}') || c == '\U{2028}' || c == '\U{2029}'
    || c == '\U{202F}' || c == '\U{205F}' || c == '\U{3000}'
  }

  predicate AllSpace(s: string)
  {
    forall i :: 0 <= i < |s| ==> IsSpace(s[i])
  }

  predicate NoSpace(s: string)
  {
    forall i :: 0 <= i < |s| ==> !IsSpace(s[i])
  }

  /** `str.lstrip()`: the suffix of `s` left after dropping leading whitespace. */
  function StripLeft(s: string): (r: string)
    ensures |r| <= |s| && r == s[|s| - |r|..]
    ensures AllSpace(s[..|s| - |r|])
    ensures r == [] || !IsSpace(r[0])
  {
    if s != [] && IsSpace(s[0]) then
      var r := StripLeft(s[1..]);
      assert s[..|s| - |r|] == [s[0]] + s[1..][..|s| - 1 - |r|];
      r
    else s
  }

  /** `str.rstrip()`: the prefix of `s` left after dropping trailing whitespace. */
  function StripRight(s: string): (r: string)
    ensures |r| <= |s| && r == s[..|r|]
    ensures AllSpace(s[|r|..])
    ensures r == [] || !IsSpace(r[|r| - 1])
  {
    if s != [] && IsSpace(s[|s| - 1]) then
      var p := s[..|s| - 1];
      var r := StripRight(p);
      assert p[..|r|] == s[..|r|] && s[|r|..] == p[|r|..] + [s[|s| - 1]];
      r
    else s
  }

  /** `str.strip()`: `s` without its leading and trailing whitespace; StripSpec says what is kept. */
  function Strip(s: string): (r: string)
    ensures r == [] || (!IsSpace(r[0]) && !IsSpace(r[|r| - 1]))
  {
    StripRight(StripLeft(s))
  }

  /** `s` is whitespace, then `Strip(s)`, then whitespace. */
  lemma StripSpec(s: string)
    ensures exists i :: StrippedAt(s, Strip(s), i)
  {
    var t := StripLeft(s);
    var r := StripRight(t);
    var i := |s| - |t|;
    assert s[i..] == t && s[i..][..|r|] == r && s[i..][|r|..] == t[|r|..];
    assert Strip(s) == r;
    assert StrippedAt(s, r, i);
  }

  /** `s` is whitespace up to `i`, then `r`, then whitespace. */
  predicate StrippedAt(s: string, r: string, i: int)
  {
    0 <= i <= |s| - |r| && s[i..][..|r|] == r && AllSpace(s[..i]) && AllSpace(s[i..][|r|..])
  }

  lemma StripUnchanged(s: string)
    requires s == [] || (!IsSpace(s[0]) && !IsSpace(s[|s| - 1]))
    ensures Strip(s) == s
  {
  }

  /** Stripping twice is stripping once. */
  lemma StripIdempotent(s: string)
    ensures Strip(Strip(s)) == Strip(s)
  {
    StripUnchanged(Strip(s));
  }

  // ---------------------------------------------------------------- case mapping

  /** Upper-case letters of Latin Extended-A whose lower-case partner is the next code point. */
  predicate PairedUpper(c: char)
  {
    var n := c as int;
    (0x100 <= n <= 0x12E && n % 2 == 0) || (0x132 <= n <= 0x136 && n % 2 == 0)
    || (0x139 <= n <= 0x147 && n % 2 == 1) || (0x14A <= n <= 0x176 && n % 2 == 0)
    || (0x179 <= n <= 0x17D && n % 2 == 1)
  }

  /** Lower-case letters of Latin Extended-A whose upper-case partner is the previous code point. */
  predicate PairedLower(c: char)
  {
    var n := c as int;
    (0x101 <= n <= 0x12F && n % 2 == 1) || (0x133 <= n <= 0x137 && n % 2 == 1)
    || (0x13A <= n <= 0x148 && n % 2 == 0) || (0x14B <= n <= 0x177 && n % 2 == 1)
    || (0x17A <= n <= 0x17E && n % 2 == 0)
  }

  /**
    `str.lower()` on one character, for the letters of ASCII, Latin-1 and Latin
    Extended-A that have a one-to-one case partner (every Polish letter among
    them); any other character is left as it is.
  */
  function LowerChar(c: char): char
  {
    if 'A' <= c <= 'Z' || ('\U{C0}' <= c <= '\U{DE}' && c != '\U{D7}') then (c as int + 32) as char
    else if PairedUpper(c) then (c as int + 1) as char
    else if c == '\U{178}' then '\U{FF}'
    else c
  }

  /** `str.upper()` (and title case) on one character, over the same letters as LowerChar. */
  function UpperChar(c: char): char
  {
    if 'a' <= c <= 'z' || ('\U{E0}' <= c <= '\U{FE}' && c != '\U{F7}') then (c as int - 32) as char
    else if PairedLower(c) then (c as int - 1) as char
    else if c == '\U{FF}' then '\U{178}'
    else c
  }

  /**
    Letters of Latin-1 and Latin Extended-A that Unicode counts as cased but
    that have no one-to-one case partner: the ordinal indicators, the micro
    sign, sharp s, dotted capital I, dotless i, kra, n preceded by apostrophe
    and long s.
  */
  const CasedWithoutPartner: set<char> :=
    {'\U{AA}', '\U{B5}', '\U{BA}', '\U{DF}', '\U{130}', '\U{131}', '\U{138}', '\U{149}', '\U{17F}'}

  /** A cased character is one that has a case partner, or one of the letters above. */
  predicate IsCased(c: char)
  {
    LowerChar(c) != c || UpperChar(c) != c || c in CasedWithoutPartner
  }

  lemma CaseChar(c: char)
    ensures LowerChar(LowerChar(c)) == LowerChar(c) && UpperChar(UpperChar(c)) == UpperChar(c)
    ensures LowerChar(UpperChar(c)) == LowerChar(c) && UpperChar(LowerChar(c)) == UpperChar(c)
    ensures IsCased(LowerChar(c)) == IsCased(c) && IsCased(UpperChar(c)) == IsCased(c)
  {
    if c as int < 0x100 {
      CaseLatin1(c);
    } else {
      CaseExtendedA(c);
    }
  }

  lemma CaseLatin1(c: char)
    requires c as int < 0x100
    ensures LowerChar(LowerChar(c)) == LowerChar(c) && UpperChar(UpperChar(c)) == UpperChar(c)
    ensures LowerChar(UpperChar(c)) == LowerChar(c) && UpperChar(LowerChar(c)) == UpperChar(c)
    ensures IsCased(LowerChar(c)) == IsCased(c) && IsCased(UpperChar(c)) == IsCased(c)
  {
  }

  lemma CaseExtendedA(c: char)
    requires c as int >= 0x100
    ensures LowerChar(LowerChar(c)) == LowerChar(c) && UpperChar(UpperChar(c)) == UpperChar(c)
    ensures LowerChar(UpperChar(c)) == LowerChar(c) && UpperChar(LowerChar(c)) == UpperChar(c)
    ensures IsCased(LowerChar(c)) == IsCased(c) && IsCased(UpperChar(c)) == IsCased(c)
  {
    if c as int < 0x139 {
      CaseExtendedALow(c);
    } else if c as int < 0x14A {
      CaseExtendedAMiddle(c);
    } else {
      CaseExtendedAHigh(c);
    }
  }

  /** The case laws of CaseChar for one character. */
  predicate CaseLaws(c: char)
  {
    && LowerChar(LowerChar(c)) == LowerChar(c) && UpperChar(UpperChar(c)) == UpperChar(c)
    && LowerChar(UpperChar(c)) == LowerChar(c) && UpperChar(LowerChar(c)) == UpperChar(c)
    && IsCased(LowerChar(c)) == IsCased(c) && IsCased(UpperChar(c)) == IsCased(c)
  }

  lemma CaseExtendedALow(c: char)
    requires 0x100 <= c as int < 0x139
    ensures CaseLaws(c)
  {
  }

  lemma CaseExtendedAMiddle(c: char)
    requires 0x139 <= c as int < 0x14A
    ensures CaseLaws(c)
  {
  }

  lemma CaseExtendedAHigh(c: char)
    requires 0x14A <= c as int
    ensures CaseLaws(c)
  {
  }

  /** `str.lower()`. */
  function Lower(s: string): (r: string)
    ensures |r| == |s| && forall i :: 0 <= i < |s| ==> r[i] == LowerChar(s[i])
  {
    seq(|s|, i requires 0 <= i < |s| => LowerChar(s[i]))
  }

  /**
    `str.title()`: a character is upper-cased when it starts the string or
    follows an uncased character, and lower-cased when it follows a cased one.
  */
  function Title(s: string): (r: string)
    ensures |r| == |s|
    ensures forall i :: 0 <= i < |s| ==>
      r[i] == if i > 0 && IsCased(s[i - 1]) then LowerChar(s[i]) else UpperChar(s[i])
  {
    seq(|s|, i requires 0 <= i < |s| => if i > 0 && IsCased(s[i - 1]) then LowerChar(s[i]) else UpperChar(s[i]))
  }

  /** `str.capitalize()`: first character upper-cased, the rest lower-cased. */
  function Capitalize(s: string): (r: string)
    ensures |r| == |s|
    ensures s != [] ==> r[0] == UpperChar(s[0]) && r[1..] == Lower(s[1..])
  {
    if s == [] then [] else [UpperChar(s[0])] + Lower(s[1..])
  }

  /** Sharp s is cased, so the letter after it stays lower-case, as in Python. */
  lemma TitleSharpS()
    ensures Title("großstadt") == "Großstadt"
  {
  }

  /** Lower-casing is idempotent. */
  lemma LowerIdempotent(s: string)
    ensures Lower(Lower(s)) == Lower(s)
  {
    forall i | 0 <= i < |s| ensures Lower(Lower(s))[i] == Lower(s)[i] {
      CaseChar(s[i]);
    }
  }

  /** Title-casing changes only the case of letters: it agrees with `s` once both are lower-cased. */
  lemma LowerOfTitle(s: string)
    ensures Lower(Title(s)) == Lower(s)
  {
    forall i | 0 <= i < |s| ensures Lower(Title(s))[i] == Lower(s)[i] {
      CaseChar(s[i]);
    }
  }

  /** Title-casing a title-cased string changes nothing. */
  lemma TitleIdempotent(s: string)
    ensures Title(Title(s)) == Title(s)
  {
    var t := Title(s);
    forall i | 0 <= i < |s| ensures Title(t)[i] == t[i] {
      CaseChar(s[i]);
      if i > 0 {
        CaseChar(s[i - 1]);
        assert IsCased(t[i - 1]) == IsCased(s[i - 1]);
      }
    }
  }

  /** Whitespace is uncased, so case mapping leaves it in place. */
  lemma SpaceUncased(c: char)
    requires IsSpace(c)
    ensures LowerChar(c) == c && UpperChar(c) == c && !IsCased(c)
  {
  }

  // ---------------------------------------------------------------- split and join

  /** `sep` occurs in `s` at position `i`. */
  predicate OccursAt(s: string, sep: string, i: nat)
  {
    i + |sep| <= |s| && s[i..i + |sep|] == sep
  }

  /** `str.find(sep)`: a position at which `sep` occurs in `s` (the first, by FindFirst), if any. */
  function Find(s: string, sep: string): (r: Option<nat>)
    ensures r.Some? ==> OccursAt(s, sep, r.value)
    decreases |s|
  {
    if |s| < |sep| then None
    else if s[..|sep|] == sep then Some(0)
    else
      match Find(s[1..], sep)
      case None => None
      case Some(k) =>
        assert s[1..][k..k + |sep|] == s[k + 1..k + 1 + |sep|];
        Some(k + 1)
  }

  /** Find returns the first occurrence, and None only when there is none. */
  lemma {:induction false} FindFirst(s: string, sep: string)
    ensures Find(s, sep).Some? ==> forall j :: 0 <= j < Find(s, sep).value ==> !OccursAt(s, sep, j)
    ensures Find(s, sep).None? ==> forall j :: 0 <= j <= |s| ==> !OccursAt(s, sep, j)
    decreases |s|
  {
    if |s| >= |sep| && s[..|sep|] != sep {
      FindFirst(s[1..], sep);
      forall j | 1 <= j <= |s| && OccursAt(s, sep, j) ensures OccursAt(s[1..], sep, j - 1) {
        assert s[1..][j - 1..j - 1 + |sep|] == s[j..j + |sep|];
      }
    }
  }

  /** `sep.join(parts)`. */
  function Join(parts: seq<string>, sep: string): string
  {
    if |parts| == 0 then "" else if |parts| == 1 then parts[0] else parts[0] + sep + Join(parts[1..], sep)
  }

  /** Joining one more part appends the separator and that part. */
  lemma {:induction false} JoinSnoc(parts: seq<string>, p: string, sep: string)
    requires parts != []
    ensures Join(parts + [p], sep) == Join(parts, sep) + sep + p
    decreases |parts|
  {
    if |parts| == 1 {
      assert parts + [p] == [parts[0], p];
      assert ([parts[0], p])[1..] == [p];
    } else {
      assert (parts + [p])[1..] == parts[1..] + [p];
      JoinSnoc(parts[1..], p, sep);
    }
  }

  /** `s.split(sep)` for a non-empty separator: the pieces between the left-to-right occurrences of `sep`. */
  function Split(s: string, sep: string): (parts: seq<string>)
    requires sep != []
    ensures |parts| >= 1
    decreases |s|
  {
    match Find(s, sep)
    case None => [s]
    case Some(i) => [s[..i]] + Split(s[i + |sep|..], sep)
  }

  /** Joining the pieces back with `sep` gives `s`. */
  lemma {:induction false} SplitJoin(s: string, sep: string)
    requires sep != []
    ensures Join(Split(s, sep), sep) == s
    decreases |s|
  {
    if Find(s, sep).Some? {
      var i := Find(s, sep).value;
      var head, tail := s[..i], s[i + |sep|..];
      SplitJoin(tail, sep);
      assert Split(s, sep) == [head] + Split(tail, sep);
      JoinCons(head, Split(tail, sep), sep);
      Around(s, i, i + |sep|);
    }
  }

  /** A string is its text before `i`, from `i` to `j`, and from `j` on. */
  lemma Around(s: string, i: nat, j: nat)
    requires i <= j <= |s|
    ensures s == s[..i] + s[i..j] + s[j..]
  {
  }

  lemma JoinCons(head: string, rest: seq<string>, sep: string)
    requires rest != []
    ensures Join([head] + rest, sep) == head + sep + Join(rest, sep)
  {
    assert ([head] + rest)[1..] == rest;
  }

  /** No piece contains `sep`. */
  lemma {:induction false} SplitPiecesFree(s: string, sep: string)
    requires sep != []
    ensures forall k :: 0 <= k < |Split(s, sep)| ==> Find(Split(s, sep)[k], sep).None?
    decreases |s|
  {
    if Find(s, sep).Some? {
      var i := Find(s, sep).value;
      var tail := s[i + |sep|..];
      SplitPiecesFree(tail, sep);
      HeadFree(s, sep);
      var rest := Split(tail, sep);
      var parts := [s[..i]] + rest;
      assert forall k | 1 <= k < |parts| :: parts[k] == rest[k - 1];
    }
  }

  /** The text before the first occurrence of `sep` does not contain it. */
  lemma HeadFree(s: string, sep: string)
    requires sep != [] && Find(s, sep).Some?
    ensures Find(s[..Find(s, sep).value], sep).None?
  {
    var i := Find(s, sep).value;
    var head := s[..i];
    FindFirst(s, sep);
    if Find(head, sep).Some? {
      var k := Find(head, sep).value;
      assert head[k..k + |sep|] == s[k..k + |sep|];
      assert OccursAt(s, sep, k);
    }
  }

  /** A string without the character `c` splits on it into itself alone. */
  lemma SplitNoChar(a: string, c: char)
    requires c !in a
    ensures Split(a, [c]) == [a]
  {
    match Find(a, [c])
    case None =>
    case Some(k) =>
      SlicedChar(a, k, c);
      assert false;

  }

  /** Splitting on the character `c` gives one piece more than there are `c`s. */
  lemma {:induction false} SplitCharCount(s: string, c: char)
    ensures |Split(s, [c])| == multiset(s)[c] + 1
    decreases |s|
  {
    if c !in s {
      SplitNoChar(s, c);
    } else {
      var i := FirstIndex(s, c);
      var a, rest := s[..i], s[i + 1..];
      assert s == a + [c] + rest;
      SplitAtChar(a, rest, c);
      SplitCharCount(rest, c);
      assert multiset(s) == multiset(a) + multiset([c]) + multiset(rest);
    }
  }

  /** The first position of `c` in `s`. */
  lemma {:induction false} FirstIndex(s: string, c: char) returns (i: nat)
    requires c in s
    ensures i < |s| && s[i] == c && c !in s[..i]
    decreases |s|
  {
    if s[0] == c {
      i := 0;
    } else {
      var j := FirstIndex(s[1..], c);
      i := j + 1;
      assert s[..i] == [s[0]] + s[1..][..j];
    }
  }

  /** A one-character occurrence of `c` at `k` puts `c` in `s`. */
  lemma SlicedChar(s: string, k: nat, c: char)
    ensures OccursAt(s, [c], k) ==> c in s
  {
    if OccursAt(s, [c], k) {
      assert s[k] == s[k..k + 1][0];
    }
  }

  /** The first occurrence of `c` in `a + [c] + rest` is right after `a` when `a` has none. */
  lemma FindChar(a: string, rest: string, c: char)
    requires c !in a
    ensures Find(a + [c] + rest, [c]) == Some(|a|)
  {
    var s := a + [c] + rest;
    FindFirst(s, [c]);
    assert s[|a|..|a| + 1] == [c];
    assert OccursAt(s, [c], |a|);
    forall j | 0 <= j < |a| ensures !OccursAt(s, [c], j) {
      assert s[j] == a[j];
    }
  }

  /** Splitting on `c` peels off the text before its first occurrence. */
  lemma SplitAtChar(a: string, rest: string, c: char)
    requires c !in a
    ensures Split(a + [c] + rest, [c]) == [a] + Split(rest, [c])
  {
    var s := a + [c] + rest;
    FindChar(a, rest, c);
    assert s[..|a|] == a && s[|a| + 1..] == rest;
  }

  /** `"a.b.c".split(".")` when no piece holds a dot: exactly the three pieces. */
  lemma SplitThree(a: string, b: string, c: string, dot: char)
    requires dot !in a && dot !in b && dot !in c
    ensures Split(a + [dot] + b + [dot] + c, [dot]) == [a, b, c]
  {
    var tail := b + [dot] + c;
    assert a + [dot] + b + [dot] + c == a + [dot] + tail;
    SplitAtChar(a, tail, dot);
    SplitTwo(b, c, dot);
  }

  lemma SplitTwo(b: string, c: string, dot: char)
    requires dot !in b && dot !in c
    ensures Split(b + [dot] + c, [dot]) == [b, c]
  {
    SplitAtChar(b, c, dot);
    SplitNoChar(c, dot);
  }

  /** The characters of `s` with every `a` replaced by `b` (`str.replace` on one character). */
  function ReplaceChar(s: string, a: char, b: char): (r: string)
    ensures |r| == |s|
    ensures forall i :: 0 <= i < |s| ==> r[i] == if s[i] == a then b else s[i]
  {
    seq(|s|, i requires 0 <= i < |s| => if s[i] == a then b else s[i])
  }

  /** The length of the run of non-whitespace characters at the front of `t`. */
  function WordLength(t: string): (n: nat)
    ensures n <= |t| && NoSpace(t[..n]) && (n == |t| || IsSpace(t[n]))
    ensures t != [] && !IsSpace(t[0]) ==> n > 0
  {
    if t == [] || IsSpace(t[0]) then 0 else 1 + WordLength(t[1..])
  }

  /**
    `str.split()` without arguments: the maximal runs of non-whitespace
    characters, left to right; none is empty and none holds whitespace.
  */
  function Words(s: string): (ws: seq<string>)
    ensures forall k :: 0 <= k < |ws| ==> ws[k] != [] && NoSpace(ws[k])
    decreases |s|
  {
    if s == [] then []
    else if IsSpace(s[0]) then Words(s[1..])
    else
      var n := WordLength(s);
      var rest := Words(s[n..]);
      var ws := [s[..n]] + rest;
      assert forall k | 1 <= k < |ws| :: ws[k] == rest[k - 1];
      ws
  }

  /** Only a string of whitespace has no words. */
  lemma {:induction false} WordsEmpty(s: string)
    ensures Words(s) == [] <==> AllSpace(s)
    decreases |s|
  {
    if s != [] && IsSpace(s[0]) {
      WordsEmpty(s[1..]);
      assert AllSpace(s) <==> AllSpace(s[1..]) by {
        if AllSpace(s[1..]) {
          forall i | 0 <= i < |s| ensures IsSpace(s[i]) {
            if i > 0 { assert s[i] == s[1..][i - 1]; }
          }
        }
      }
    }
  }

  /** Replacing a character acts on each part of a concatenation separately. */
  lemma ReplaceAppend(s: string, t: string, a: char, b: char)
    ensures ReplaceChar(s + t, a, b) == ReplaceChar(s, a, b) + ReplaceChar(t, a, b)
  {
  }

  /** Text without the character is left as it is. */
  lemma ReplaceAbsent(s: string, a: char, b: char)
    requires a !in s
    ensures ReplaceChar(s, a, b) == s
  {
  }

  /** A word followed by whitespace or the end is the run `split()` takes first. */
  lemma {:induction false} WordLengthOf(a: string, t: string)
    requires NoSpace(a) && (t == [] || IsSpace(t[0]))
    ensures WordLength(a + t) == |a|
    decreases |a|
  {
    if a != [] {
      assert (a + t)[1..] == a[1..] + t;
      WordLengthOf(a[1..], t);
    }
  }

  /** A word, a whitespace character, then more text: the word comes first, then the words of the rest. */
  lemma WordsCons(a: string, sep: char, rest: string)
    requires a != [] && NoSpace(a) && IsSpace(sep)
    ensures Words(a + [sep] + rest) == [a] + Words(rest)
  {
    var s := a + [sep] + rest;
    WordLengthOf(a, [sep] + rest);
    assert s == a + ([sep] + rest);
    assert s[..|a|] == a && s[|a|..] == [sep] + rest;
    assert ([sep] + rest)[1..] == rest;
  }

  /** Leading whitespace is skipped. */
  lemma WordsSpace(sep: char, rest: string)
    requires IsSpace(sep)
    ensures Words([sep] + rest) == Words(rest)
  {
    assert ([sep] + rest)[1..] == rest;
  }

  /** A single word is its own split. */
  lemma WordsSingle(a: string)
    requires a != [] && NoSpace(a)
    ensures Words(a) == [a]
  {
    WordLengthOf(a, []);
    assert a + [] == a && a[|a|..] == [];
  }

  // ---------------------------------------------------------------- digits and integers

  predicate IsDigit(c: char)
  {
    '0' <= c <= '9'
  }

  predicate AllDigits(s: string)
  {
    forall i :: 0 <= i < |s| ==> IsDigit(s[i])
  }

  function DigitValue(c: char): nat
    requires IsDigit(c)
  {
    c as int - '0' as int
  }

  function DigitChar(d: nat): (c: char)
    requires d < 10
    ensures IsDigit(c) && DigitValue(c) == d
  {
    ('0' as int + d) as char
  }

  /** The value of a string of decimal digits, most significant first. */
  function DigitsValue(s: string): nat
    requires AllDigits(s)
    decreases |s|
  {
    if s == [] then 0 else DigitsValue(s[..|s| - 1]) * 10 + DigitValue(s[|s| - 1])
  }

  /** `str(n)` for a natural number: decimal digits without leading zeros that read back as `n`. */
  function NatToString(n: nat): (r: string)
    ensures r != [] && AllDigits(r) && DigitsValue(r) == n
    ensures r[0] == '0' ==> r == "0"
    decreases n
  {
    if n < 10 then [DigitChar(n)]
    else
      var r := NatToString(n / 10) + [DigitChar(n % 10)];
      assert r[..|r| - 1] == NatToString(n / 10);
      r
  }

  /** `str(i)` for any integer. */
  function IntToString(i: int): string
  {
    if i < 0 then "-" + NatToString(-i) else NatToString(i)
  }

  /** `int(str(i)) == i`. */
  lemma IntToStringRoundTrip(i: int)
    ensures ParseInt(IntToString(i)) == Some(i)
  {
    if i < 0 {
      ParseSigned("-" + NatToString(-i));
    } else {
      ParseUnsigned(NatToString(i));
    }
  }

  /**
    `int(s)` in base 10: optional surrounding whitespace, an optional `+` or
    `-`, then one or more ASCII digits; anything else is a ValueError (None).
  */
  function ParseInt(s: string): Option<int>
  {
    ParseStripped(Strip(s))
  }

  /** `int` on text without surrounding whitespace. */
  function ParseStripped(t: string): Option<int>
  {
    if |t| >= 2 && (t[0] == '+' || t[0] == '-') && AllDigits(t[1..]) then
      Some(if t[0] == '-' then -(DigitsValue(t[1..]) as int) else DigitsValue(t[1..]))
    else if t != [] && AllDigits(t) then Some(DigitsValue(t))
    else None
  }

  /** An optional `+` or `-` followed by one or more ASCII digits. */
  predicate IntLiteral(t: string)
  {
    var digits := if t != [] && (t[0] == '+' || t[0] == '-') then t[1..] else t;
    digits != [] && AllDigits(digits)
  }

  /** `int(s)` succeeds exactly when the stripped text is an integer literal. */
  lemma ParseIntDefined(s: string)
    ensures ParseInt(s).Some? <==> IntLiteral(Strip(s))
  {
    var t := Strip(s);
    if t != [] && (t[0] == '+' || t[0] == '-') {
      assert !IsDigit(t[0]);
      assert !AllDigits(t);
    }
  }

  lemma ParseUnsigned(t: string)
    requires t != [] && AllDigits(t)
    ensures ParseInt(t) == Some(DigitsValue(t) as int)
  {
    assert IsDigit(t[0]) && IsDigit(t[|t| - 1]);
    StripUnchanged(t);
    assert ParseStripped(t) == Some(DigitsValue(t) as int);
    assert ParseInt(t) == ParseStripped(t);
  }

  lemma ParseSigned(t: string)
    requires |t| >= 2 && t[0] == '-' && AllDigits(t[1..])
    ensures ParseInt(t) == Some(-(DigitsValue(t[1..]) as int))
  {
    var u := t[1..];
    var last := t[|t| - 1];
    assert last == u[|u| - 1];
    assert IsDigit(last) && !IsSpace(last) && !IsSpace(t[0]);
    StripUnchanged(t);
    assert ParseStripped(t) == Some(-(DigitsValue(u) as int));
  }

  /** A leading zero does not change the value of a digit string. */
  lemma {:induction false} LeadingZero(s: string)
    requires AllDigits(s)
    ensures AllDigits("0" + s) && DigitsValue("0" + s) == DigitsValue(s)
    decreases |s|
  {
    if s != [] {
      var z := "0" + s;
      assert z[..|z| - 1] == "0" + s[..|s| - 1];
      LeadingZero(s[..|s| - 1]);
    }
  }

  /** `f"{n:02d}"`: the decimal form of `n`, zero-padded after any sign to width two. */
  function Format02(n: int): (r: string)
    ensures |r| >= 2
    ensures 0 <= n < 100 ==> |r| == 2 && AllDigits(r)
  {
    if n < 0 then "-" + NatToString(-n)
    else if n < 10 then
      var r := "0" + NatToString(n);
      LeadingZero(NatToString(n));
      r
    else
      assert |NatToString(n / 10)| >= 1;
      NatToString(n)
  }

  /** `int(f"{n:02d}") == n`: the padding never changes the value. */
  lemma Format02RoundTrip(n: int)
    ensures ParseInt(Format02(n)) == Some(n)
  {
    if n < 0 {
      ParseSigned("-" + NatToString(-n));
    } else if n < 10 {
      LeadingZero(NatToString(n));
      ParseUnsigned("0" + NatToString(n));
    } else {
      ParseUnsigned(NatToString(n));
    }
  }

  /**
    `s.zfill(2)`: zeros are inserted after any leading sign until the width is
    two; a string already that wide is returned unchanged, never truncated.
  */
  function ZFill2(s: string): (r: string)
    ensures |r| == if |s| >= 2 then |s| else 2
    ensures |s| >= 2 ==> r == s
    ensures |s| == 1 && s[0] != '+' && s[0] != '-' ==> r == "0" + s
    ensures s == [] ==> r == "00"
  {
    if |s| >= 2 then s
    else if |s| == 1 && (s[0] == '+' || s[0] == '-') then s + "0"
    else if |s| == 1 then "0" + s
    else "00"
  }

  // ---------------------------------------------------------------- ordering

  /** Python's `a < b` on strings: lexicographic by code point, a proper prefix first. */
  predicate LexLess(a: string, b: string)
    decreases |a|
  {
    if a == [] then b != []
    else if b == [] then false
    else if a[0] != b[0] then a[0] < b[0]
    else LexLess(a[1..], b[1..])
  }

  /** Python's `a <= b` on strings. */
  predicate LexLe(a: string, b: string)
  {
    a == b || LexLess(a, b)
  }

  lemma {:induction false} LexLessIrreflexive(a: string)
    ensures !LexLess(a, a)
    decreases |a|
  {
    if a != [] {
      LexLessIrreflexive(a[1..]);
    }
  }

  /** Two different strings are ordered one way or the other. */
  lemma {:induction false} LexLessTotal(a: string, b: string)
    ensures a == b || LexLess(a, b) || LexLess(b, a)
    decreases |a|
  {
    if a != [] && b != [] && a[0] == b[0] {
      LexLessTotal(a[1..], b[1..]);
      if a[1..] == b[1..] {
        assert a == [a[0]] + a[1..] && b == [b[0]] + b[1..];
      }
    }
  }

  lemma {:induction false} LexLessTransitive(a: string, b: string, c: string)
    requires LexLess(a, b) && LexLess(b, c)
    ensures LexLess(a, c)
    decreases |a|
  {
    if a != [] && a[0] == b[0] && b[0] == c[0] {
      LexLessTransitive(a[1..], b[1..], c[1..]);
    }
  }

  lemma LexLessAsymmetric(a: string, b: string)
    requires LexLess(a, b)
    ensures !LexLess(b, a)
  {
    if LexLess(b, a) {
      LexLessTransitive(a, b, a);
      LexLessIrreflexive(a);
    }
  }
}
