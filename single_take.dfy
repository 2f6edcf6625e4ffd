/** The Single Take filename rule of the camera-roll cleaner.

    A listed name is handed to the move step when it fully matches the regular
    expression `IMG_.*_\d{2}\.(jpg|mp4|jpeg)` (java.util.regex, no flags) and does
    not end with `_99.mp4`, the suffix of the original video that must be kept.
    The expression is written out by hand twice: once as the language it denotes
    (InPattern, an existential over the ways through it) and once as a tail check that
    reads the fixed-length tail off the end of the name (Matches). */
module SingleTake {

  const Prefix: string := "IMG_"
  const OriginalVideoSuffix: string := "_99.mp4"

  /** `\d` without UNICODE_CHARACTER_CLASS: an ASCII digit. */
  predicate IsDigit(c: char) {
    '0' <= c <= '9'
  }

  /** The characters that `.` refuses while DOTALL is off. */
  predicate IsLineTerminator(c: char) {
    c == '\n' || c == '\r' || c == '\U{85}' || c == '\U{2028}' || c == '\U{2029}'
  }

  /** The strings that `.*` matches. */
  predicate NoLineTerminator(s: string) {
    forall i :: 0 <= i < |s| ==> !IsLineTerminator(s[i])
  }

  /** The alternatives of `(jpg|mp4|jpeg)`, compared case-sensitively. */
  predicate IsExtension(ext: string) {
    ext == "jpg" || ext == "mp4" || ext == "jpeg"
  }

  /** The name spelled by one path through the expression. */
  function Spell(middle: string, d1: char, d2: char, ext: string): string {
    Prefix + middle + "_" + [d1, d2] + "." + ext
  }

  /** Reference definition: the names the expression matches in full. */
  ghost predicate InPattern(name: string) {
    exists middle: string, d1: char, d2: char, ext: string ::
      && NoLineTerminator(middle)
      && IsDigit(d1) && IsDigit(d2)
      && IsExtension(ext)
      && name == Spell(middle, d1, d2, ext)
  }

  /** Kotlin's `String.endsWith`, case-sensitive. */
  predicate EndsWith(s: string, suffix: string) {
    |suffix| <= |s| && s[|s| - |suffix|..] == suffix
  }

  /** The full match with the extension fixed: once `ext` is chosen, the tail
      `_dd.` + ext has a fixed length, so `.*` must take exactly what lies between
      the prefix and that tail. */
  predicate MatchesWith(name: string, ext: string) {
    var t := 4 + |ext|;
    var n := |name|;
    && |Prefix| + t <= n
    && name[..|Prefix|] == Prefix
    && NoLineTerminator(name[|Prefix|..n - t])
    && name[n - t] == '_'
    && IsDigit(name[n - t + 1]) && IsDigit(name[n - t + 2])
    && name[n - t + 3] == '.'
    && name[n - |ext|..] == ext
  }

  /** `name.matches(Regex("IMG_.*_\\d{2}\\.(jpg|mp4|jpeg)"))`. The shortest
      name it accepts has 11 characters (ShortestSelectedName). */
  function Matches(name: string): (b: bool)
    ensures b ==> 11 <= |name| && name[..|Prefix|] == Prefix
  {
    MatchesWith(name, "jpg") || MatchesWith(name, "mp4") || MatchesWith(name, "jpeg")
  }

  /** Whether the cleanup pass adds a listed name to the files it processes. */
  function Selected(name: string): (b: bool)
    ensures b ==> 11 <= |name| && name[..|Prefix|] == Prefix
  {
    Matches(name) && !EndsWith(name, OriginalVideoSuffix)
  }

  /** Every spelling of the expression passes the tail check. */
  lemma MatchesSpelled(middle: string, d1: char, d2: char, ext: string)
    requires NoLineTerminator(middle) && IsDigit(d1) && IsDigit(d2) && IsExtension(ext)
    ensures MatchesWith(Spell(middle, d1, d2, ext), ext)
    ensures Matches(Spell(middle, d1, d2, ext))
  {
    var name := Spell(middle, d1, d2, ext);
    var n, t := |name|, 4 + |ext|;
    assert n == 4 + |middle| + t;
    assert name[..4] == Prefix;
    assert name[4..n - t] == middle;
    assert name[n - t] == '_' && name[n - t + 1] == d1 && name[n - t + 2] == d2;
    assert name[n - t + 3] == '.';
    assert name[n - |ext|..] == ext;
  }

  /** A name that passes the tail check is the spelling of the pieces read off it. */
  lemma SpelledWhenMatches(name: string, ext: string)
    requires MatchesWith(name, ext)
    ensures var n, t := |name|, 4 + |ext|;
      name == Spell(name[4..n - t], name[n - t + 1], name[n - t + 2], ext)
  {
    var n, t := |name|, 4 + |ext|;
    var s := Spell(name[4..n - t], name[n - t + 1], name[n - t + 2], ext);
    assert |s| == n;
    forall i | 0 <= i < n
      ensures s[i] == name[i]
    {
      if i < 4 {
        assert s[i] == Prefix[i] == name[..4][i];
      } else if i < n - t {
        assert s[i] == name[4..n - t][i - 4];
      } else if i < n - |ext| {
      } else {
        assert s[i] == ext[i - (n - |ext|)] == name[n - |ext|..][i - (n - |ext|)];
      }
    }
  }

  /** A name the tail check accepts has a path through the expression. */
  lemma InPatternWhenMatches(name: string, ext: string)
    requires MatchesWith(name, ext) && IsExtension(ext)
    ensures InPattern(name)
  {
    var n, t := |name|, 4 + |ext|;
    var middle, d1, d2 := name[4..n - t], name[n - t + 1], name[n - t + 2];
    SpelledWhenMatches(name, ext);
    assert NoLineTerminator(middle) && IsDigit(d1) && IsDigit(d2);
    assert name == Spell(middle, d1, d2, ext);
  }

  /** The tail check Matches and the reference definition agree on every name. */
  lemma MatchesIffInPattern(name: string)
    ensures Matches(name) <==> InPattern(name)
  {
    if MatchesWith(name, "jpg") {
      InPatternWhenMatches(name, "jpg");
    } else if MatchesWith(name, "mp4") {
      InPatternWhenMatches(name, "mp4");
    } else if MatchesWith(name, "jpeg") {
      InPatternWhenMatches(name, "jpeg");
    }
    if InPattern(name) {
      var middle: string, d1: char, d2: char, ext: string :|
        && NoLineTerminator(middle)
        && IsDigit(d1) && IsDigit(d2)
        && IsExtension(ext)
        && name == Spell(middle, d1, d2, ext);
      MatchesSpelled(middle, d1, d2, ext);
    }
  }

  /** The classification of lines 92-96: selected exactly when the name is in the
      language of the expression and does not end in `_99.mp4`. */
  lemma SelectedIff(name: string)
    ensures Selected(name) <==> InPattern(name) && !EndsWith(name, OriginalVideoSuffix)
  {
    MatchesIffInPattern(name);
  }

  /** The original video `IMG_<middle>_99.mp4` is in the language of the
      expression; only the exclusion keeps it out. */
  lemma OriginalVideoExcluded(middle: string)
    requires NoLineTerminator(middle)
    ensures InPattern(Prefix + middle + OriginalVideoSuffix)
    ensures !Selected(Prefix + middle + OriginalVideoSuffix)
  {
    var name := Prefix + middle + OriginalVideoSuffix;
    assert name == Spell(middle, '9', '9', "mp4");
    MatchesSpelled(middle, '9', '9', "mp4");
    MatchesIffInPattern(name);
    assert name[|name| - |OriginalVideoSuffix|..] == OriginalVideoSuffix;
  }

  /** A spelling of the expression is selected unless it spells the original
      video, two nines followed by the mp4 extension. */
  lemma SpelledSelected(middle: string, d1: char, d2: char, ext: string)
    requires NoLineTerminator(middle) && IsDigit(d1) && IsDigit(d2) && IsExtension(ext)
    ensures Selected(Spell(middle, d1, d2, ext)) <==> !(d1 == '9' && d2 == '9' && ext == "mp4")
  {
    var name := Spell(middle, d1, d2, ext);
    var tail := "_" + [d1, d2] + "." + ext;
    MatchesSpelled(middle, d1, d2, ext);
    assert name == (Prefix + middle) + tail;
    var n := |name|;
    assert name[n - 7..] == tail[|tail| - 7..];
  }

  /** No name ending in `_99.mp4` is selected, whatever precedes the suffix. */
  lemma NoOriginalVideoSelected(name: string)
    requires EndsWith(name, OriginalVideoSuffix)
    ensures !Selected(name)
  {
  }

  /** The exclusion looks at the mp4 suffix only: the 99th still and its jpeg
      variant are still selected. */
  lemma NinetyNinthStillSelected(middle: string, ext: string)
    requires NoLineTerminator(middle)
    requires ext == "jpg" || ext == "jpeg"
    ensures Selected(Prefix + middle + "_99." + ext)
  {
    var name := Prefix + middle + "_99." + ext;
    assert name == Spell(middle, '9', '9', ext);
    MatchesSpelled(middle, '9', '9', ext);
    var n := |name|;
    assert name[n - 1] == ext[|ext| - 1] == 'g';
    assert name[n - 1] == name[n - 7..][6];
  }

  /** The shortest selected names have 11 characters: `.*` may be empty. */
  lemma ShortestSelectedName()
    ensures Selected("IMG__00.jpg") && |"IMG__00.jpg"| == 11
    ensures forall name :: Selected(name) ==> 11 <= |name|
  {
    assert Spell("", '0', '0', "jpg") == "IMG__00.jpg";
    MatchesSpelled("", '0', '0', "jpg");
  }

  /** Extensions are compared case-sensitively: no accepted name ends in
      `.JPG`, `.JPEG` or `.MP4`. */
  lemma AcceptedIsLowerCase(name: string)
    ensures Matches(name) ==>
      !EndsWith(name, ".JPG") && !EndsWith(name, ".JPEG") && !EndsWith(name, ".MP4")
  {
    if Matches(name) {
      var ext: string :| ext in ["jpg", "mp4", "jpeg"] && MatchesWith(name, ext);
      var n := |name|;
      assert name[n - 1] == name[n - |ext|..][|ext| - 1];
      assert name[n - 2] == name[n - |ext|..][|ext| - 2];
      assert name[n - 1] == name[n - 4..][3] == name[n - 5..][4];
      assert name[n - 2] == name[n - 4..][2];
    }
  }

  /** `.` never matches a line terminator and no literal of the expression is
      one, so an accepted name holds no line terminator anywhere. */
  lemma AcceptedHasNoLineTerminator(name: string)
    ensures Matches(name) ==> NoLineTerminator(name)
  {
    if Matches(name) {
      var ext: string :| ext in ["jpg", "mp4", "jpeg"] && MatchesWith(name, ext);
      var n, t := |name|, 4 + |ext|;
      forall i | 0 <= i < n
        ensures !IsLineTerminator(name[i])
      {
        if i < 4 {
          assert name[i] == name[..4][i];
        } else if i < n - t {
          assert name[i] == name[4..n - t][i - 4];
        } else if i < n - |ext| {
          assert i == n - t || i == n - t + 1 || i == n - t + 2 || i == n - t + 3;
        } else {
          assert name[i] == name[n - |ext|..][i - (n - |ext|)];
        }
      }
    }
  }
}
