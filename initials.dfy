/** `getInitials` of the page layout: the avatar text derived from the signed-in user's
    name, which may be missing (`null` or `undefined`). */
module Initials {
  import opened Wrappers
  import opened JsString

  /** What a missing or empty name shows. */
  const Unknown: string := "??"

  /** After `trim`, a name split on spaces has a non-empty first and last piece whenever it
      has more than one, so reading the first character of each is always in range. */
  lemma {:induction false} OuterPartsNonEmpty(t: string)
    requires Trimmed(t)
    ensures var parts := Split(t, ' ');
            |parts| >= 2 ==> parts[0] != [] && parts[|parts| - 1] != []
  {
    if t != [] {
      TrimmedEndsNotSpace(t);
      SplitFirst(t, ' ');
      SplitLast(t, ' ');
    }
  }

  /** The initials of an already trimmed, non-empty name: its first two characters when it
      is one space-separated piece, otherwise the first characters of its first and last
      pieces; upper-cased. */
  function InitialsOfTrimmed(t: string): (r: string)
    requires Trimmed(t)
    ensures |r| <= 2
  {
    var parts := Split(t, ' ');
    if |parts| == 1 then ToUpper(Substring(parts[0], 0, 2))
    else
      OuterPartsNonEmpty(t);
      ToUpper([parts[0][0]] + [parts[|parts| - 1][0]])
  }

  /** A falsy name gives "??"; any other name is trimmed and then read as above. */
  function GetInitials(name: Option<string>): (r: string)
    ensures |r| <= 2
    ensures name == None || name == Some("") ==> r == Unknown
  {
    if name == None || name.value == "" then Unknown
    else InitialsOfTrimmed(Trim(name.value))
  }

  /** A name with no space left after trimming shows its first two characters (or fewer,
      when it is shorter), upper-cased. */
  lemma {:induction false} InitialsOfOnePart(name: string)
    requires name != "" && ' ' !in Trim(name)
    ensures var t := Trim(name);
            GetInitials(Some(name)) == ToUpper(t[..Min(2, |t|)])
  {
    SplitFree(Trim(name), ' ');
    SubstringOrdered(Trim(name), 0, 2);
  }

  /** The several-pieces case of `InitialsOfTrimmed`, in terms of the pieces. */
  lemma {:induction false} InitialsOfTrimmedPieces(t: string)
    requires Trimmed(t) && |Split(t, ' ')| >= 2
    ensures var parts := Split(t, ' ');
            parts[0] != [] && parts[|parts| - 1] != [] &&
            InitialsOfTrimmed(t) == [UpperChar(parts[0][0]), UpperChar(parts[|parts| - 1][0])]
  {
    OuterPartsNonEmpty(t);
    var parts := Split(t, ' ');
    var u := [parts[0][0]] + [parts[|parts| - 1][0]];
    assert ToUpper(u) == [UpperChar(u[0]), UpperChar(u[1])];
  }

  /** The several-pieces case on the trimmed name, around its last space. */
  lemma {:induction false} InitialsAroundLastSpace(t: string, front: string, back: string)
    requires Trimmed(t) && t == front + " " + back && ' ' !in back
    ensures front != [] && back != []
    ensures InitialsOfTrimmed(t) == [UpperChar(front[0]), UpperChar(back[0])]
  {
    TrimmedEndsNotSpace(t);
    assert t[|front|] == ' ';
    assert front != [] && front[0] == t[0];
    assert back != [] by {
      assert t[|t| - 1] == if back == [] then ' ' else back[|back| - 1];
    }
    SplitAround(front, back, ' ');
    InitialsOfTrimmedPieces(t);
  }

  /** A name that still holds a space after trimming shows exactly two characters: the first
      character of the name and the first character after its last space, upper-cased. */
  lemma {:induction false} InitialsOfSeveralParts(name: string, front: string, back: string)
    requires Trim(name) == front + " " + back && ' ' !in back
    ensures front != [] && back != []
    ensures GetInitials(Some(name)) == [UpperChar(front[0]), UpperChar(back[0])]
  {
    InitialsAroundLastSpace(Trim(name), front, back);
    assert name != "";
  }

  /** Leading and trailing white space never changes the initials of a non-empty name. */
  lemma {:induction false} InitialsIgnorePadding(w1: string, name: string, w2: string)
    requires AllWhitespace(w1) && AllWhitespace(w2) && name != ""
    ensures GetInitials(Some(w1 + name + w2)) == GetInitials(Some(name))
  {
    TrimPadded(w1, name, w2);
    assert |w1 + name + w2| >= |name|;
  }

  /** Only the first and the last piece are read: the middle of a name never matters. */
  lemma {:induction false} InitialsIgnoreMiddle(first: string, middle: string, last: string)
    requires first != [] && !IsWhitespace(first[0])
    requires last != [] && !IsWhitespace(last[|last| - 1]) && ' ' !in last
    ensures GetInitials(Some(first + " " + middle + " " + last)) == GetInitials(Some(first + " " + last))
  {
    var long := first + " " + middle + " " + last;
    var short := first + " " + last;
    assert long[0] == first[0] && short[0] == first[0];
    assert long[|long| - 1] == last[|last| - 1] && short[|short| - 1] == last[|last| - 1];
    TrimOfTrimmed(long);
    TrimOfTrimmed(short);
    assert long == (first + " " + middle) + " " + last;
    InitialsOfSeveralParts(long, first + " " + middle, last);
    InitialsOfSeveralParts(short, first, last);
  }

  /** A name made only of white space is truthy, so it does not show "??": it trims to the
      empty string, which splits into one empty piece and shows nothing. */
  lemma {:induction false} InitialsOfBlankName(name: string)
    requires name != "" && AllWhitespace(name)
    ensures GetInitials(Some(name)) == ""
  {
    TrimEmptyIff(name);
  }
}
