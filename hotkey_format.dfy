/** The hotkey notation both clients hand to `pynput`: the configured string is
    lower-cased, split on `+`, each part stripped, the modifier names wrapped in
    angle brackets, and the parts joined with `+` again ("Alt + 1" becomes
    "<alt>+1"). The first client's `parse_hotkey` writes this as a list
    comprehension and the second client's `_to_pynput_format` as a loop. */
module HotkeyFormat {
  import opened Text

  /** The key names `pynput` expects in angle brackets. */
  const Modifiers: set<string> := {"alt", "ctrl", "shift", "cmd", "win"}

  /** One part: stripped, and wrapped when it names a modifier. */
  function FormatPart(p: string): (r: string)
    ensures '+' !in p ==> '+' !in r
    ensures Stripped(r)
  {
    var q := Strip(p);
    StripSub(p);
    if q in Modifiers then "<" + q + ">" else q
  }

  /** The formatted parts, one for each `+`-separated part of the lower-cased string. */
  function FormatParts(s: string): (parts: seq<string>)
    ensures |parts| == |Split(Lower(s), '+')|
    ensures forall p :: p in parts ==> '+' !in p
  {
    var raw := Split(Lower(s), '+');
    var parts := seq(|raw|, i requires 0 <= i < |raw| => FormatPart(raw[i]));
    assert forall i :: 0 <= i < |raw| ==> '+' !in raw[i] by {
      forall i | 0 <= i < |raw| ensures '+' !in raw[i] {
        assert raw[i] in raw;
      }
    }
    parts
  }

  /** The string `pynput` receives. */
  function Format(s: string): string {
    Join(FormatParts(s), "+")
  }

  /** Lower-casing neither adds nor removes a `+`. */
  lemma {:induction false} CountLower(s: string)
    ensures Count(Lower(s), '+') == Count(s, '+')
  {
    if s != [] {
      assert Lower(s)[1..] == Lower(s[1..]);
      CountLower(s[1..]);
    }
  }

  /** Splitting the formatted string gives back the formatted parts, so there
      are exactly as many `+`-separated parts as in the configured string. */
  lemma SplitFormat(s: string)
    ensures Split(Format(s), '+') == FormatParts(s)
    ensures |Split(Format(s), '+')| == |Split(s, '+')|
  {
    SplitJoin(FormatParts(s), '+');
    CountLower(s);
  }

  /** A formatted part formats to itself: it is already stripped, and a
      wrapped modifier such as "<alt>" is not itself a modifier name. */
  lemma FormatPartTwice(p: string)
    ensures FormatPart(FormatPart(p)) == FormatPart(p)
  {
    var q := Strip(p);
    if q in Modifiers {
      var w := "<" + q + ">";
      assert Stripped(w);
      StripOfStripped(w);
      assert w[0] == '<';
    } else {
      StripOfStripped(q);
    }
  }

  /** A formatted part is lower-case when the part it came from is. */
  lemma FormatPartLower(p: string)
    requires IsLower(p)
    ensures IsLower(FormatPart(p))
  {
    StripLower(p);
    var q := Strip(p);
    if q in Modifiers {
      var w := "<" + q + ">";
      forall i | 0 <= i < |w| ensures LowerChar(w[i]) == w[i] {
        if 0 < i < |w| - 1 {
          assert w[i] == q[i - 1];
        }
      }
    }
  }

  /** The formatted string is lower-case. */
  lemma FormatLower(s: string)
    ensures IsLower(Format(s))
  {
    var raw := Split(Lower(s), '+');
    LowerIsLower(s);
    SplitLower(Lower(s), '+');
    var parts := FormatParts(s);
    forall i | 0 <= i < |parts| ensures IsLower(parts[i]) {
      assert raw[i] in raw;
      FormatPartLower(raw[i]);
    }
    JoinLower(parts, "+");
  }

  /** Formatting is idempotent: a string already in `pynput` notation is left
      as it is. */
  lemma FormatTwice(s: string)
    ensures Format(Format(s)) == Format(s)
  {
    var f := Format(s);
    FormatLower(s);
    LowerOfLower(f);
    SplitFormat(s);
    var parts := FormatParts(s);
    var again := FormatParts(f);
    assert |again| == |parts|;
    forall i | 0 <= i < |parts| ensures again[i] == parts[i] {
      FormatPartTwice(Split(Lower(s), '+')[i]);
    }
    assert again == parts;
  }
}
