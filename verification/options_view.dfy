/**
  The options demo: a list of option strings, the preferred one (the empty
  string when none is), and the raw text of a field from which the options are
  parsed as `;`-separated pieces. An option is shown selected exactly when it
  equals the preference, and tapping it toggles the preference.
 */
module OptionsView {

  const Separator: char := ';'

  datatype Provider = Provider(text: string, options: seq<string>, preference: string)

  /** The demo's starting values. */
  const InitialProvider: Provider := Provider("", ["OptionA", "OptionB"], "")

  /** `OptionView`'s `isSelected`: with no preference, only the empty option is shown selected. */
  predicate IsSelected(option: string, preference: string)
    ensures preference == "" ==> (IsSelected(option, preference) <==> option == "")
  {
    option == preference
  }

  /** At most one distinct option is selected, whatever the list holds. */
  lemma AtMostOneSelected(a: string, b: string, preference: string)
    requires IsSelected(a, preference) && IsSelected(b, preference)
    ensures a == b
  {
  }

  /** `_evaluate(.toggleOption(o))`: choosing the chosen option clears the choice. */
  function ToggleOption(p: Provider, o: string): (r: Provider)
    ensures r.text == p.text && r.options == p.options
    ensures p.preference == o ==> r.preference == ""
    ensures p.preference != o ==> r.preference == o
  {
    if p.preference == o then p.(preference := "") else p.(preference := o)
  }

  /**
    Tapping a non-empty option flips whether it is shown selected; the empty
    option is special, as it always equals the cleared preference.
   */
  lemma ToggleFlipsSelection(p: Provider, o: string)
    ensures o != "" ==> (IsSelected(o, ToggleOption(p, o).preference) <==> !IsSelected(o, p.preference))
    ensures o == "" ==> IsSelected(o, ToggleOption(p, o).preference)
  {
  }

  /** Two taps on the same option, starting with nothing chosen, leave nothing chosen. */
  lemma ToggleTwiceFromNothing(p: Provider, o: string)
    requires p.preference == ""
    ensures ToggleOption(ToggleOption(p, o), o) == p
  {
  }

  // ---------------------------------------------------------------------------
  // Parsing the text field

  /**
    Swift's `split(separator:)` with its default of omitting empty pieces;
    `current` is the piece read so far.
   */
  function SplitFrom(s: string, sep: char, current: string): seq<string>
    decreases |s|
  {
    if |s| == 0 then (if current == "" then [] else [current])
    else if s[0] == sep then (if current == "" then [] else [current]) + SplitFrom(s[1..], sep, "")
    else SplitFrom(s[1..], sep, current + [s[0]])
  }

  /** The pieces are non-empty, free of the separator, and hold exactly the other characters. */
  function Split(s: string, sep: char): (r: seq<string>)
    ensures WellFormed(r, sep)
    ensures Concat(r) == Without(s, sep)
  {
    SplitFromWellFormed(s, sep, "");
    SplitFromKeepsText(s, sep, "");
    assert "" + Without(s, sep) == Without(s, sep);
    SplitFrom(s, sep, "")
  }

  /** A list of options a text field can produce: non-empty pieces without the separator. */
  predicate WellFormed(xs: seq<string>, sep: char) {
    forall i :: 0 <= i < |xs| ==> xs[i] != "" && sep !in xs[i]
  }

  /** `options.joined(separator: ";")`, the text the options control starts with. */
  function Join(xs: seq<string>, sep: char): string
    decreases |xs|
  {
    if |xs| == 0 then ""
    else if |xs| == 1 then xs[0]
    else xs[0] + [sep] + Join(xs[1..], sep)
  }

  /** The characters of `s` other than `sep`, in order. */
  function Without(s: string, sep: char): (r: string)
    ensures sep !in r
    decreases |s|
  {
    if |s| == 0 then "" else (if s[0] == sep then "" else [s[0]]) + Without(s[1..], sep)
  }

  function Concat(xs: seq<string>): string
    decreases |xs|
  {
    if |xs| == 0 then "" else xs[0] + Concat(xs[1..])
  }

  lemma {:induction false} ConcatAppend(a: seq<string>, b: seq<string>)
    ensures Concat(a + b) == Concat(a) + Concat(b)
    decreases |a|
  {
    if |a| == 0 {
      assert a + b == b;
    } else {
      assert (a + b)[0] == a[0];
      assert (a + b)[1..] == a[1..] + b;
      ConcatAppend(a[1..], b);
    }
  }

  /** Every piece is non-empty and free of the separator. */
  lemma {:induction false} SplitFromWellFormed(s: string, sep: char, current: string)
    requires sep !in current
    ensures WellFormed(SplitFrom(s, sep, current), sep)
    decreases |s|
  {
    if |s| > 0 {
      if s[0] == sep {
        SplitFromWellFormed(s[1..], sep, "");
      } else {
        SplitFromWellFormed(s[1..], sep, current + [s[0]]);
      }
    }
  }

  /** The pieces hold exactly the characters of the text other than the separator, in order. */
  lemma {:induction false} SplitFromKeepsText(s: string, sep: char, current: string)
    ensures Concat(SplitFrom(s, sep, current)) == current + Without(s, sep)
    decreases |s|
  {
    if |s| == 0 {
      assert current + "" == current;
    } else {
      var head: seq<string> := if current == "" then [] else [current];
      assert Concat(head) == current;
      if s[0] == sep {
        SplitFromKeepsText(s[1..], sep, "");
        ConcatAppend(head, SplitFrom(s[1..], sep, ""));
        assert "" + Without(s[1..], sep) == Without(s[1..], sep);
      } else {
        SplitFromKeepsText(s[1..], sep, current + [s[0]]);
        assert current + [s[0]] + Without(s[1..], sep) == current + ([s[0]] + Without(s[1..], sep));
      }
    }
  }

  /** Text without the separator just extends the piece being read. */
  lemma {:induction false} SplitFromWord(w: string, t: string, sep: char, current: string)
    requires sep !in w
    ensures SplitFrom(w + t, sep, current) == SplitFrom(t, sep, current + w)
    decreases |w|
  {
    if |w| == 0 {
      assert w + t == t;
      assert current + w == current;
    } else {
      assert (w + t)[0] == w[0];
      assert (w + t)[1..] == w[1..] + t;
      assert w[0] != sep;
      SplitFromWord(w[1..], t, sep, current + [w[0]]);
      assert current + [w[0]] + w[1..] == current + w;
    }
  }

  /** A separator ends the piece being read; what follows is split afresh. */
  lemma {:induction false} SplitFromSeparator(a: string, b: string, sep: char, current: string)
    ensures SplitFrom(a + [sep] + b, sep, current) == SplitFrom(a, sep, current) + SplitFrom(b, sep, "")
    decreases |a|
  {
    var head: seq<string> := if current == "" then [] else [current];
    if |a| == 0 {
      assert a + [sep] + b == [sep] + b;
      assert ([sep] + b)[1..] == b;
    } else {
      assert (a + [sep] + b)[0] == a[0];
      assert (a + [sep] + b)[1..] == a[1..] + [sep] + b;
      if a[0] == sep {
        SplitFromSeparator(a[1..], b, sep, "");
        assert head + (SplitFrom(a[1..], sep, "") + SplitFrom(b, sep, ""))
            == head + SplitFrom(a[1..], sep, "") + SplitFrom(b, sep, "");
      } else {
        SplitFromSeparator(a[1..], b, sep, current + [a[0]]);
      }
    }
  }

  /**
    The text on either side of a separator is split independently, so the
    pieces break at every separator; leading, trailing and repeated
    separators yield no empty piece.
   */
  lemma SplitAtSeparator(a: string, b: string, sep: char)
    ensures Split(a + [sep] + b, sep) == Split(a, sep) + Split(b, sep)
  {
    SplitFromSeparator(a, b, sep, "");
  }

  /** A non-empty word without the separator is a single piece. */
  lemma SplitWord(w: string, sep: char)
    requires w != "" && sep !in w
    ensures Split(w, sep) == [w]
  {
    SplitFromWord(w, "", sep, "");
    assert w + "" == w;
    assert "" + w == w;
  }

  /** Splitting the joined options gives the options back. */
  lemma {:induction false} SplitJoin(xs: seq<string>, sep: char)
    requires WellFormed(xs, sep)
    ensures Split(Join(xs, sep), sep) == xs
    decreases |xs|
  {
    if |xs| == 1 {
      SplitFromWord(xs[0], "", sep, "");
      assert xs[0] + "" == xs[0];
      assert "" + xs[0] == xs[0];
    } else if |xs| > 1 {
      var rest := Join(xs[1..], sep);
      assert Join(xs, sep) == xs[0] + ([sep] + rest);
      SplitFromWord(xs[0], [sep] + rest, sep, "");
      assert "" + xs[0] == xs[0];
      assert ([sep] + rest)[1..] == rest;
      SplitJoin(xs[1..], sep);
      assert xs == [xs[0]] + xs[1..];
    }
  }

  /** Nothing is parsed exactly when the text holds only separators. */
  lemma {:induction false} SplitEmpty(s: string, sep: char)
    ensures Split(s, sep) == [] <==> Without(s, sep) == ""
  {
    SplitFromKeepsText(s, sep, "");
    SplitFromWellFormed(s, sep, "");
    var xs := Split(s, sep);
    assert "" + Without(s, sep) == Without(s, sep);
    if xs != [] {
      assert Concat(xs) == xs[0] + Concat(xs[1..]);
      assert |Concat(xs)| >= |xs[0]| > 0;
    }
  }

  /** `textFieldDidChange`: store the text verbatim and re-parse the options. */
  function TextFieldDidChange(p: Provider, text: string): (r: Provider)
    ensures r.text == text && r.preference == p.preference
    ensures |r.options| > 0
    ensures WellFormed(r.options, Separator)
    ensures Without(text, Separator) == "" ==> r.options == [" "]
    ensures Without(text, Separator) != "" ==> Concat(r.options) == Without(text, Separator)
    ensures Split(text, Separator) != [] ==> r.options == Split(text, Separator)
  {
    SplitEmpty(text, Separator);
    var pieces := Split(text, Separator);
    p.(text := text, options := if |pieces| == 0 then [" "] else pieces)
  }

  /** The field starts with the options joined by ";", which parse back to the same options. */
  lemma InitialTextParsesBack()
    ensures TextFieldDidChange(InitialProvider, Join(InitialProvider.options, Separator)) ==
              InitialProvider.(text := "OptionA;OptionB")
  {
    var xs := InitialProvider.options;
    assert Join(xs, Separator) == "OptionA;OptionB";
    SplitJoin(xs, Separator);
  }

  /** After an edit, tapping any shown option flips whether it is selected. */
  lemma EditedOptionsToggle(p: Provider, text: string, i: int)
    requires 0 <= i < |TextFieldDidChange(p, text).options|
    ensures var q := TextFieldDidChange(p, text);
            IsSelected(q.options[i], ToggleOption(q, q.options[i]).preference) <==> !IsSelected(q.options[i], q.preference)
  {
    ToggleFlipsSelection(TextFieldDidChange(p, text), TextFieldDidChange(p, text).options[i]);
  }
}
