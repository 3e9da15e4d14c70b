/** The parts of the JavaScript String API that the initials derivation relies on:
    `trim`, `split` on a one-character separator, `substring` and `toUpperCase`.
    A JavaScript string is modelled as a `seq<char>`. */
module JsString {

  /** The WhiteSpace and LineTerminator code points of ECMAScript: exactly what `trim` removes. */
  predicate IsWhitespace(c: char) {
    c == '\U{9}' || c == '\U{B}' || c == '\U{C}' || c == ' ' || c == '\U{A0}' || c == '\U{FEFF}'
    || c == '\U{1680}' || ('\U{2000}' <= c <= '\U{200A}') || c == '\U{202F}' || c == '\U{205F}'
    || c == '\U{3000}' || IsLineTerminator(c)
  }

  /** The LineTerminator code points; a regular-expression `.` matches anything else. */
  predicate IsLineTerminator(c: char) {
    c == '\n' || c == '\r' || c == '\U{2028}' || c == '\U{2029}'
  }

  predicate AllWhitespace(s: string) {
    forall i :: 0 <= i < |s| ==> IsWhitespace(s[i])
  }

  /** A string that `trim` leaves alone: empty, or neither end is white space. */
  predicate Trimmed(s: string) {
    s == [] || (!IsWhitespace(s[0]) && !IsWhitespace(s[|s| - 1]))
  }

  /** `String.prototype.trimStart`: drops the white space in front. */
  function TrimStart(s: string): (r: string)
    ensures |r| <= |s| && r == s[|s| - |r|..]
    ensures r == [] || !IsWhitespace(r[0])
  {
    if |s| > 0 && IsWhitespace(s[0]) then TrimStart(s[1..]) else s
  }

  /** `String.prototype.trimEnd`: drops the white space at the back. */
  function TrimEnd(s: string): (r: string)
    ensures |r| <= |s| && r == s[..|r|]
    ensures r == [] || !IsWhitespace(r[|r| - 1])
  {
    if |s| > 0 && IsWhitespace(s[|s| - 1]) then TrimEnd(s[..|s| - 1]) else s
  }

  /** `String.prototype.trim`: the string without its leading and trailing white space. */
  function Trim(s: string): (r: string)
    ensures Trimmed(r)
  {
    var t := TrimStart(s);
    var r := TrimEnd(t);
    assert r == [] || r[0] == t[0];
    r
  }

  /** What `trimStart` drops is white space. */
  lemma {:induction false} TrimStartDropsBlank(s: string)
    ensures forall i :: 0 <= i < |s| - |TrimStart(s)| ==> IsWhitespace(s[i])
  {
    forall i | 0 <= i < |s| - |TrimStart(s)| ensures IsWhitespace(s[i]) {
      TrimStartDropsAt(s, i);
    }
  }

  lemma {:induction false} TrimStartDropsAt(s: string, i: nat)
    requires i < |s| - |TrimStart(s)|
    ensures IsWhitespace(s[i])
    decreases i
  {
    if i > 0 {
      var tail := s[1..];
      assert TrimStart(s) == TrimStart(tail);
      TrimStartDropsAt(tail, i - 1);
      assert tail[i - 1] == s[i];
    }
  }

  /** What `trimEnd` drops is white space. */
  lemma {:induction false} TrimEndDropsBlank(s: string)
    ensures forall i :: |TrimEnd(s)| <= i < |s| ==> IsWhitespace(s[i])
  {
    forall i | |TrimEnd(s)| <= i < |s| ensures IsWhitespace(s[i]) {
      TrimEndDropsAt(s, i);
    }
  }

  lemma {:induction false} TrimEndDropsAt(s: string, i: nat)
    requires |TrimEnd(s)| <= i < |s|
    ensures IsWhitespace(s[i])
    decreases |s| - i
  {
    if i < |s| - 1 {
      var init := s[..|s| - 1];
      assert TrimEnd(s) == TrimEnd(init);
      TrimEndDropsAt(init, i);
      assert init[i] == s[i];
    }
  }

  /** `trim` returns the slice of its input that starts after the leading white space. */
  lemma {:induction false} TrimIsSlice(s: string)
    ensures var r := Trim(s); var a := |s| - |TrimStart(s)|;
            a + |r| <= |s| && r == s[a..a + |r|]
  {
    var t := TrimStart(s);
    assert Trim(s) == TrimEnd(t);
    SliceOfSuffix(s, t, TrimEnd(t));
  }

  /** What `trim` drops, in front of that slice and behind it, is all white space. */
  lemma {:induction false} TrimDropsBlank(s: string)
    ensures var r := Trim(s); var a := |s| - |TrimStart(s)|;
            (forall i :: 0 <= i < a ==> IsWhitespace(s[i])) &&
            (forall i :: a + |r| <= i < |s| ==> IsWhitespace(s[i]))
  {
    var t := TrimStart(s);
    var a := |s| - |t|;
    TrimStartDropsBlank(s);
    TrimEndDropsBlank(t);
    BlankTailOfSuffix(s, t, |TrimEnd(t)|);
  }

  /** White space at the back of a suffix is white space at the back of the whole. */
  lemma {:induction false} BlankTailOfSuffix(s: string, t: string, n: nat)
    requires |t| <= |s| && t == s[|s| - |t|..] && n <= |t|
    requires forall i :: n <= i < |t| ==> IsWhitespace(t[i])
    ensures forall i :: |s| - |t| + n <= i < |s| ==> IsWhitespace(s[i])
  {
    forall i | |s| - |t| + n <= i < |s| ensures IsWhitespace(s[i]) {
      assert s[i] == t[i - (|s| - |t|)];
    }
  }

  /** A prefix of a suffix is a slice. */
  lemma {:induction false} SliceOfSuffix(s: string, t: string, r: string)
    requires |t| <= |s| && t == s[|s| - |t|..]
    requires |r| <= |t| && r == t[..|r|]
    ensures |s| - |t| + |r| <= |s| && r == s[|s| - |t|..|s| - |t| + |r|]
  {
  }

  lemma {:induction false} TrimStartBlank(s: string)
    ensures TrimStart(s) == [] <==> AllWhitespace(s)
    decreases |s|
  {
    if s != [] {
      TrimStartBlank(s[1..]);
      if IsWhitespace(s[0]) {
        assert AllWhitespace(s) <==> AllWhitespace(s[1..]) by {
          assert forall i :: 1 <= i < |s| ==> s[i] == s[1..][i - 1];
        }
      }
    }
  }

  lemma {:induction false} TrimEndKeepsFront(t: string)
    requires t != [] && !IsWhitespace(t[0])
    ensures TrimEnd(t) != []
    decreases |t|
  {
    if IsWhitespace(t[|t| - 1]) {
      TrimEndKeepsFront(t[..|t| - 1]);
    }
  }

  /** A string is made of white space exactly when `trim` empties it. */
  lemma {:induction false} TrimEmptyIff(s: string)
    ensures Trim(s) == [] <==> AllWhitespace(s)
  {
    TrimStartBlank(s);
    if !AllWhitespace(s) {
      TrimEndKeepsFront(TrimStart(s));
    }
  }

  lemma {:induction false} TrimStartPadded(w: string, s: string)
    requires AllWhitespace(w)
    ensures TrimStart(w + s) == TrimStart(s)
    decreases |w|
  {
    if w != [] {
      assert (w + s)[1..] == w[1..] + s;
      TrimStartPadded(w[1..], s);
    } else {
      assert w + s == s;
    }
  }

  lemma {:induction false} TrimEndPadded(s: string, w: string)
    requires AllWhitespace(w)
    ensures TrimEnd(s + w) == TrimEnd(s)
    decreases |w|
  {
    if w != [] {
      assert (s + w)[..|s + w| - 1] == s + w[..|w| - 1];
      TrimEndPadded(s, w[..|w| - 1]);
    } else {
      assert s + w == s;
    }
  }

  /** Once the front is non-blank, anything appended passes through `trimStart` untouched. */
  lemma {:induction false} TrimStartAppend(s: string, t: string)
    requires TrimStart(s) != []
    ensures TrimStart(s + t) == TrimStart(s) + t
    decreases |s|
  {
    if IsWhitespace(s[0]) {
      assert (s + t)[1..] == s[1..] + t;
      TrimStartAppend(s[1..], t);
    }
  }

  /** White space added at either end never changes what `trim` returns. */
  lemma {:induction false} TrimPadded(w1: string, s: string, w2: string)
    requires AllWhitespace(w1) && AllWhitespace(w2)
    ensures Trim(w1 + s + w2) == Trim(s)
  {
    assert w1 + s + w2 == w1 + (s + w2);
    TrimStartPadded(w1, s + w2);
    if TrimStart(s) != [] {
      TrimStartAppend(s, w2);
      TrimEndPadded(TrimStart(s), w2);
    } else {
      TrimStartBlank(s);
      assert AllWhitespace(s + w2) by {
        forall i | 0 <= i < |s + w2| ensures IsWhitespace((s + w2)[i]) {
          if i < |s| { assert (s + w2)[i] == s[i]; } else { assert (s + w2)[i] == w2[i - |s|]; }
        }
      }
      TrimEmptyIff(s + w2);
      TrimEmptyIff(s);
    }
  }

  /** A trimmed string neither starts nor ends with a space. */
  lemma {:induction false} TrimmedEndsNotSpace(t: string)
    requires Trimmed(t) && t != []
    ensures t[0] != ' ' && t[|t| - 1] != ' '
  {
  }

  /** `trim` is the identity on a string that starts and ends with a non-blank character. */
  lemma {:induction false} TrimOfTrimmed(s: string)
    requires Trimmed(s)
    ensures Trim(s) == s
  {
  }

  /** Number of occurrences of `c` in `s`. */
  function Count(s: string, c: char): nat {
    if s == [] then 0 else (if s[0] == c then 1 else 0) + Count(s[1..], c)
  }

  /** `String.prototype.split(sep)` for a one-character separator: the pieces between
      the separators, always at least one, none containing the separator. */
  function Split(s: string, sep: char): (parts: seq<string>)
    ensures |parts| >= 1
    decreases |s|
  {
    if s == [] then [""] else SplitStep(s[0], Split(s[1..], sep), sep)
  }

  /** The pieces after one more character in front: a separator opens a new empty first
      piece, any other character joins the front of the first piece. */
  function SplitStep(c: char, rest: seq<string>, sep: char): (parts: seq<string>)
    requires |rest| >= 1
    ensures |parts| >= 1
  {
    if c == sep then [""] + rest else [[c] + rest[0]] + rest[1..]
  }

  /** `split` yields one more piece than there are separators, and no piece holds one. */
  lemma {:induction false} SplitPieces(s: string, sep: char)
    ensures var parts := Split(s, sep);
            |parts| == Count(s, sep) + 1 && forall i :: 0 <= i < |parts| ==> sep !in parts[i]
    decreases |s|
  {
    if s != [] {
      SplitPieces(s[1..], sep);
    }
  }

  /** `Array.prototype.join(sep)`: the inverse of `Split`. */
  function Join(parts: seq<string>, sep: char): string
    requires |parts| >= 1
  {
    if |parts| == 1 then parts[0] else parts[0] + [sep] + Join(parts[1..], sep)
  }

  /** Splitting then joining gives back the original string. */
  lemma {:induction false} JoinSplit(s: string, sep: char)
    ensures Join(Split(s, sep), sep) == s
    decreases |s|
  {
    if s != [] {
      var tail := s[1..];
      assert s == [s[0]] + tail;
      SplitCons(s[0], tail, sep);
      JoinSplit(tail, sep);
      JoinStep(s[0], Split(tail, sep), sep);
    }
  }

  /** Joining undoes one step of `Split`: the character comes back in front. */
  lemma {:induction false} JoinStep(c: char, rest: seq<string>, sep: char)
    requires |rest| >= 1
    ensures Join(SplitStep(c, rest, sep), sep) == [c] + Join(rest, sep)
  {
    var parts := SplitStep(c, rest, sep);
    if c == sep {
      assert parts[1..] == rest;
    } else if |rest| > 1 {
      assert parts[1..] == rest[1..];
      assert Join(rest, sep) == rest[0] + [sep] + Join(rest[1..], sep);
    }
  }

  /** Joining pieces free of the separator, then splitting, gives back the pieces. */
  lemma {:induction false} SplitJoin(parts: seq<string>, sep: char)
    requires |parts| >= 1
    requires forall i :: 0 <= i < |parts| ==> sep !in parts[i]
    ensures Split(Join(parts, sep), sep) == parts
    decreases |parts|
  {
    if |parts| == 1 {
      SplitFree(parts[0], sep);
    } else {
      SplitJoin(parts[1..], sep);
      SplitAppend(parts[0], Join(parts[1..], sep), sep);
      SplitFree(parts[0], sep);
      assert [parts[0]] + parts[1..] == parts;
    }
  }

  /** A string without the separator splits into itself alone. */
  lemma {:induction false} SplitFree(s: string, sep: char)
    requires sep !in s
    ensures Split(s, sep) == [s]
    decreases |s|
  {
    if s != [] {
      assert sep !in s[1..] by { assert forall c :: c in s[1..] ==> c in s; }
      SplitFree(s[1..], sep);
      assert [s[0]] + s[1..] == s;
    }
  }

  /** One step of `Split`: the pieces of a string with one more character in front. */
  lemma {:induction false} SplitCons(c: char, t: string, sep: char)
    ensures Split([c] + t, sep) == SplitStep(c, Split(t, sep), sep)
  {
    assert ([c] + t)[0] == c && ([c] + t)[1..] == t;
  }

  /** Putting a character in front commutes with appending more pieces. */
  lemma {:induction false} SplitStepAppend(c: char, ra: seq<string>, rb: seq<string>, sep: char)
    requires |ra| >= 1
    ensures SplitStep(c, ra + rb, sep) == SplitStep(c, ra, sep) + rb
  {
    assert (ra + rb)[0] == ra[0];
    assert (ra + rb)[1..] == ra[1..] + rb;
  }

  /** Splitting distributes over a separator: the pieces of `a`, then the pieces of `b`. */
  lemma {:induction false} SplitAppend(a: string, b: string, sep: char)
    ensures Split(a + [sep] + b, sep) == Split(a, sep) + Split(b, sep)
    decreases |a|
  {
    if a == [] {
      assert a + [sep] + b == [sep] + b;
      SplitCons(sep, b, sep);
    } else {
      var c, rest := a[0], a[1..];
      var tail := rest + [sep] + b;
      assert a + [sep] + b == [c] + tail;
      assert a == [c] + rest;
      SplitCons(c, tail, sep);
      SplitCons(c, rest, sep);
      SplitAppend(rest, b, sep);
      SplitStepAppend(c, Split(rest, sep), Split(b, sep), sep);
    }
  }

  /** A non-empty string that does not start with the separator has a non-empty first piece,
      and it starts with the string's first character. */
  lemma {:induction false} SplitFirst(s: string, sep: char)
    requires s != [] && s[0] != sep
    ensures Split(s, sep)[0] != [] && Split(s, sep)[0][0] == s[0]
  {
  }

  /** Around one separator whose right side holds no other: the first piece starts with the
      first character on the left, and the last piece is the whole right side. */
  lemma {:induction false} SplitAround(front: string, back: string, sep: char)
    requires front != [] && front[0] != sep && sep !in back
    ensures var parts := Split(front + [sep] + back, sep);
            |parts| >= 2 && parts[0] != [] && parts[0][0] == front[0] && parts[|parts| - 1] == back
  {
    SplitAppend(front, back, sep);
    SplitFree(back, sep);
    SplitFirst(front, sep);
  }

  /** A non-empty string that does not end with the separator has a non-empty last piece. */
  lemma {:induction false} SplitLast(s: string, sep: char)
    requires s != [] && s[|s| - 1] != sep
    ensures var parts := Split(s, sep); parts[|parts| - 1] != []
    decreases |s|
  {
    var tail := s[1..];
    assert s == [s[0]] + tail;
    SplitCons(s[0], tail, sep);
    if tail != [] {
      SplitLast(tail, sep);
    }
    StepKeepsLast(s[0], Split(tail, sep), sep, tail == []);
  }

  /** One step of `Split` keeps a non-empty last piece, and from a lone empty piece and a
      character other than the separator it makes one. */
  lemma {:induction false} StepKeepsLast(c: char, rest: seq<string>, sep: char, single: bool)
    requires |rest| >= 1
    requires if single then rest == [""] && c != sep else rest[|rest| - 1] != []
    ensures var parts := SplitStep(c, rest, sep); parts[|parts| - 1] != []
  {
  }

  function Min(a: int, b: int): int {
    if a < b then a else b
  }

  function Max(a: int, b: int): int {
    if a < b then b else a
  }

  /** `String.prototype.substring(start, end)` for non-negative bounds: both are clamped
      to the length and swapped when out of order. */
  function Substring(s: string, start: nat, end: nat): (r: string)
    ensures |r| <= |s| && |r| <= Max(start, end) - Min(start, end)
  {
    s[Min(Min(start, end), |s|)..Min(Max(start, end), |s|)]
  }

  /** With the bounds in order, `substring` is the slice between the clamped bounds. */
  lemma {:induction false} SubstringOrdered(s: string, start: nat, end: nat)
    requires start <= end
    ensures Substring(s, start, end) == s[Min(start, |s|)..Min(end, |s|)]
  {
  }

  /** Swapping the two bounds of `substring` gives the same result. */
  lemma {:induction false} SubstringSwap(s: string, start: nat, end: nat)
    ensures Substring(s, start, end) == Substring(s, end, start)
  {
  }

  predicate IsLower(c: char) { 'a' <= c <= 'z' }

  predicate IsUpper(c: char) { 'A' <= c <= 'Z' }

  /** `toUpperCase` on one character, restricted to the ASCII letters: each lower-case
      letter becomes an upper-case one, every other character stays as it is. */
  function UpperChar(c: char): (u: char)
    ensures !IsLower(u)
    ensures IsUpper(u) <==> IsLower(c) || IsUpper(c)
    ensures u == c <==> !IsLower(c)
  {
    if IsLower(c) then (c as int - 'a' as int + 'A' as int) as char else c
  }

  /** Two different characters become the same one only when exactly one of them is
      lower-case: upper-casing loses nothing but case. */
  lemma {:induction false} UpperCharCaseOnly(c: char, d: char)
    requires c != d && UpperChar(c) == UpperChar(d)
    ensures IsLower(c) != IsLower(d)
  {
  }

  const LowerAlphabet: string := "abcdefghijklmnopqrstuvwxyz"
  const UpperAlphabet: string := "ABCDEFGHIJKLMNOPQRSTUVWXYZ"

  /** Each lower-case letter becomes its own upper-case letter. */
  lemma {:induction false} UpperCharAlphabet()
    ensures |LowerAlphabet| == |UpperAlphabet| == 26
    ensures forall i :: 0 <= i < 26 ==> UpperChar(LowerAlphabet[i]) == UpperAlphabet[i]
  {
  }

  /** The alphabet lists exactly the lower-case letters. */
  lemma {:induction false} LowerAlphabetComplete()
    ensures forall c :: IsLower(c) <==> c in LowerAlphabet
  {
    forall c | IsLower(c) ensures c in LowerAlphabet {
      assert LowerAlphabet[c as int - 'a' as int] == c;
    }
  }

  /** `String.prototype.toUpperCase`, character by character. */
  function ToUpper(s: string): (r: string)
    ensures |r| == |s| && forall i :: 0 <= i < |s| ==> r[i] == UpperChar(s[i])
  {
    if s == [] then [] else [UpperChar(s[0])] + ToUpper(s[1..])
  }

  /** Upper-casing twice is upper-casing once. */
  lemma {:induction false} ToUpperIdempotent(s: string)
    ensures ToUpper(ToUpper(s)) == ToUpper(s)
  {
    var u := ToUpper(s);
    forall i | 0 <= i < |s| ensures ToUpper(u)[i] == u[i] {
      assert !IsLower(u[i]);
    }
  }
}
