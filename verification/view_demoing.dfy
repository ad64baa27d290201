/**
  `splitAtCapitalLetters`, which turns a type name such as "OptionsView" into
  the demo title " Options View": a space is put in front of every uppercase
  character and everything else is copied.
 */
module ViewDemoing {

  /**
    Lowercasing over ASCII and Latin-1: A-Z and the Latin-1 capitals move 32
    code points up (À to à, Þ to þ); every other character stays.
   */
  function ToLower(c: char): (l: char)
    ensures l == c || l as int == c as int + 32
  {
    if 'A' <= c <= 'Z' || ('À' <= c <= 'Þ' && c != '×') then (c as int + 32) as char else c
  }

  /**
    A character is uppercase when lowercasing changes it. Recognised: ASCII
    A-Z and the Latin-1 capitals U+00C0 to U+00DE without the multiplication
    sign; the lowercase form is never uppercase itself.
   */
  predicate IsUppercase(c: char)
    ensures IsUppercase(c) <==> ('A' <= c <= 'Z') || ('À' <= c <= 'Þ' && c != '×')
    ensures IsUppercase(c) ==> ToLower(ToLower(c)) == ToLower(c)
  {
    ToLower(c) != c
  }

  /** What one input character becomes. */
  function Piece(c: char): (p: string)
    ensures IsUppercase(c) ==> p == [' ', c]
    ensures !IsUppercase(c) ==> p == [c]
  {
    if IsUppercase(c) then [' ', c] else [c]
  }

  /** One space is inserted per uppercase character, and the result never starts uppercase. */
  function SplitAtCapitalLetters(s: string): (r: string)
    ensures |r| == |s| + CountUppercase(s)
    ensures |s| > 0 ==> !IsUppercase(r[0])
    decreases |s|
  {
    if |s| == 0 then "" else Piece(s[0]) + SplitAtCapitalLetters(s[1..])
  }

  function CountUppercase(s: string): (n: nat)
    ensures n <= |s|
    decreases |s|
  {
    if |s| == 0 then 0 else (if IsUppercase(s[0]) then 1 else 0) + CountUppercase(s[1..])
  }

  /** The transform works character by character, so it distributes over concatenation. */
  lemma {:induction false} SplitAppend(a: string, b: string)
    ensures SplitAtCapitalLetters(a + b) == SplitAtCapitalLetters(a) + SplitAtCapitalLetters(b)
    decreases |a|
  {
    if |a| == 0 {
      assert a + b == b;
    } else {
      assert (a + b)[0] == a[0];
      assert (a + b)[1..] == a[1..] + b;
      SplitAppend(a[1..], b);
    }
  }

  /** Without uppercase characters the string comes back unchanged. */
  lemma {:induction false} SplitWithoutUppercase(s: string)
    requires forall i :: 0 <= i < |s| ==> !IsUppercase(s[i])
    ensures SplitAtCapitalLetters(s) == s
    decreases |s|
  {
    if |s| > 0 {
      assert forall i :: 0 <= i < |s[1..]| ==> s[1..][i] == s[i + 1];
      SplitWithoutUppercase(s[1..]);
      assert s == [s[0]] + s[1..];
    }
  }

  /** A name that starts with a capital letter yields a title that starts with a space. */
  lemma SplitLeadingCapital(s: string)
    requires |s| > 0 && IsUppercase(s[0])
    ensures |SplitAtCapitalLetters(s)| >= 2
    ensures SplitAtCapitalLetters(s)[0] == ' ' && SplitAtCapitalLetters(s)[1] == s[0]
  {
  }

  /**
    The inverse: drop every space that is immediately followed by an
    uppercase character.
   */
  function JoinAtCapitalLetters(r: string): string
    decreases |r|
  {
    if |r| == 0 then ""
    else if r[0] == ' ' && |r| > 1 && IsUppercase(r[1]) then JoinAtCapitalLetters(r[1..])
    else [r[0]] + JoinAtCapitalLetters(r[1..])
  }

  /**
    No information is lost: the spaces the transform inserts are exactly the
    spaces that precede an uppercase character in its output.
   */
  lemma {:induction false} SplitRoundTrip(s: string)
    ensures JoinAtCapitalLetters(SplitAtCapitalLetters(s)) == s
    decreases |s|
  {
    if |s| > 0 {
      var rest := SplitAtCapitalLetters(s[1..]);
      SplitRoundTrip(s[1..]);
      if IsUppercase(s[0]) {
        var r := [' ', s[0]] + rest;
        assert SplitAtCapitalLetters(s) == r;
        assert r[1..] == [s[0]] + rest;
        assert ([s[0]] + rest)[1..] == rest;
        assert JoinAtCapitalLetters(r) == JoinAtCapitalLetters([s[0]] + rest);
      } else {
        var r := [s[0]] + rest;
        assert SplitAtCapitalLetters(s) == r;
        assert r[1..] == rest;
      }
      assert s == [s[0]] + s[1..];
    }
  }

  /** The loop the source runs, appending one piece per character. */
  method SplitAtCapitalLettersLoop(s: string) returns (split: string)
    ensures split == SplitAtCapitalLetters(s)
    ensures |split| == |s| + CountUppercase(s)
  {
    split := "";
    var i := 0;
    while i < |s|
      invariant 0 <= i <= |s|
      invariant split == SplitAtCapitalLetters(s[..i])
    {
      SplitAppend(s[..i], [s[i]]);
      assert s[..i + 1] == s[..i] + [s[i]];
      if IsUppercase(s[i]) {
        split := split + [' ', s[i]];
      } else {
        split := split + [s[i]];
      }
      i := i + 1;
    }
    assert s[..i] == s;
  }
}
