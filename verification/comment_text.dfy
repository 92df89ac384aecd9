/** `CommentText`: a legend comment whose text may end in one formatting marker. Resolving the
    text removes the first marker of the ordered marker list that ends it, and for the glue
    marker also the whitespace before it. The marker list and the glue marker are constants
    of `RrdGraphConstants`, which is not part of this model; they are parameters here. */
module Comments {
  import opened Wrappers

  /** A character of the `\s` class of `java.util.regex`: space, tab, line feed, vertical
      tab, form feed, carriage return. */
  predicate IsWhitespace(c: char)
  {
    c == ' ' || c == '\t' || c == '\n' || c == '\U{B}' || c == '\U{C}' || c == '\r'
  }

  /** A line terminator of `java.util.regex` that `\s` does not match. */
  predicate IsOtherLineTerminator(c: char)
  {
    c == '\U{85}' || c == '\U{2028}' || c == '\U{2029}'
  }

  /** `s.endsWith(suffix)`. */
  predicate EndsWith(s: string, suffix: string)
  {
    |suffix| <= |s| && s[|s| - |suffix|..] == suffix
  }

  /** `s` without its trailing run of whitespace. */
  function TrimTrailingWhitespace(s: string): (r: string)
    ensures r <= s
    ensures r == [] || !IsWhitespace(r[|r| - 1])
    ensures forall i :: |r| <= i < |s| ==> IsWhitespace(s[i])
  {
    if s != [] && IsWhitespace(s[|s| - 1]) then TrimTrailingWhitespace(s[..|s| - 1]) else s
  }

  /** Trimming twice trims nothing more. */
  lemma TrimIdempotent(s: string)
    ensures TrimTrailingWhitespace(TrimTrailingWhitespace(s)) == TrimTrailingWhitespace(s)
  {
  }

  /** `s.replaceFirst("\\s+$", "")` as `java.util.regex` evaluates it. Without MULTILINE, `$`
      matches at the end of the input and also just before a line terminator that ends it;
      when that terminator is one `\s` does not match, the whitespace before it is removed
      and the terminator stays. */
  function ReplaceTrailingWhitespaceAsWritten(s: string): (r: string)
    ensures |r| <= |s|
    ensures r == [] || !IsWhitespace(r[|r| - 1])
    ensures r != TrimTrailingWhitespace(s) ==>
              |s| >= 2 && IsOtherLineTerminator(s[|s| - 1]) && IsWhitespace(s[|s| - 2])
  {
    if s != [] && IsWhitespace(s[|s| - 1]) then TrimTrailingWhitespace(s)
    else if |s| >= 2 && IsOtherLineTerminator(s[|s| - 1]) && IsWhitespace(s[|s| - 2]) then
      TrimTrailingWhitespace(s[..|s| - 1]) + [s[|s| - 1]]
    else s
  }

  /** The index of the first marker, in list order, that ends `s`, searching from `i`;
      `|markers|` when none does. */
  function FirstMarkerFrom(markers: seq<string>, s: string, i: nat): (k: nat)
    requires i <= |markers|
    ensures i <= k <= |markers|
    ensures k < |markers| ==> EndsWith(s, markers[k])
    ensures forall j :: i <= j < k ==> !EndsWith(s, markers[j])
    decreases |markers| - i
  {
    if i == |markers| then |markers|
    else if EndsWith(s, markers[i]) then i
    else FirstMarkerFrom(markers, s, i + 1)
  }

  /** The `resolvedText` and `marker` that `resolveText` leaves. */
  datatype Resolution = Resolution(resolvedText: Option<string>, marker: string)

  /** What `resolveText` computes, with the glue trim as the regular expression does it. */
  function Resolve(text: Option<string>, markers: seq<string>, glue: string): (r: Resolution)
    ensures r.resolvedText.None? <==> text.None?
    ensures r.marker == "" || r.marker in markers
  {
    match text
    case None => Resolution(None, "")
    case Some(s) =>
      var k := FirstMarkerFrom(markers, s, 0);
      if k == |markers| then Resolution(text, "")
      else
        var cut := s[..|s| - |markers[k]|];
        Resolution(Some(if markers[k] == glue then ReplaceTrailingWhitespaceAsWritten(cut) else cut), markers[k])
  }

  /** What `resolveText` is evidently meant to compute: the glue trim removes whitespace
      only at the very end. */
  function ResolveIntended(text: Option<string>, markers: seq<string>, glue: string): (r: Resolution)
    ensures r.resolvedText.None? <==> text.None?
    ensures r.marker == "" || r.marker in markers
  {
    match text
    case None => Resolution(None, "")
    case Some(s) =>
      var k := FirstMarkerFrom(markers, s, 0);
      if k == |markers| then Resolution(text, "")
      else
        var cut := s[..|s| - |markers[k]|];
        Resolution(Some(if markers[k] == glue then TrimTrailingWhitespace(cut) else cut), markers[k])
  }

  /** When no marker ends the text, the text stays as it is and the marker is empty. */
  lemma NoMarkerKeepsText(s: string, markers: seq<string>, glue: string)
    requires forall j :: 0 <= j < |markers| ==> !EndsWith(s, markers[j])
    ensures Resolve(Some(s), markers, glue) == Resolution(Some(s), "")
  {
  }

  /** When `markers[k]` is the first marker that ends the text, it becomes the marker and
      exactly that suffix is removed; the whitespace trim follows only for the glue marker. */
  lemma FirstEndingMarkerRemoved(s: string, markers: seq<string>, glue: string, k: nat)
    requires k < |markers| && EndsWith(s, markers[k])
    requires forall j :: 0 <= j < k ==> !EndsWith(s, markers[j])
    ensures var cut := s[..|s| - |markers[k]|];
            && s == cut + markers[k]
            && Resolve(Some(s), markers, glue) ==
                 Resolution(Some(if markers[k] == glue then ReplaceTrailingWhitespaceAsWritten(cut) else cut),
                            markers[k])
  {
  }

  /** As written: for any marker but the glue marker, the resolved text followed by the
      marker is the text; for the glue marker the resolved text is no longer than the text
      without the marker, and ends in no whitespace. */
  lemma ResolvedShapeAsWritten(s: string, markers: seq<string>, glue: string)
    ensures var res := Resolve(Some(s), markers, glue);
            var r := res.resolvedText.value;
            && |r| + |res.marker| <= |s|
            && (res.marker != glue ==> s == r + res.marker)
            && (res.marker == glue && glue != "" ==> r == [] || !IsWhitespace(r[|r| - 1]))
  {
    var k := FirstMarkerFrom(markers, s, 0);
    if k < |markers| {
      assert s == s[..|s| - |markers[k]|] + s[|s| - |markers[k]|..];
    }
  }

  /** The code and its evident intent pick the same marker, and their texts differ only when
      the text before the glue marker ends in whitespace followed by U+0085, U+2028 or U+2029. */
  lemma AsWrittenDiffersOnlyBeforeTerminator(s: string, markers: seq<string>, glue: string)
    ensures Resolve(Some(s), markers, glue).marker == ResolveIntended(Some(s), markers, glue).marker
    ensures var m := Resolve(Some(s), markers, glue).marker;
            Resolve(Some(s), markers, glue) != ResolveIntended(Some(s), markers, glue) ==>
              && m == glue && |s| >= |m| + 2
              && IsOtherLineTerminator(s[|s| - |m| - 1]) && IsWhitespace(s[|s| - |m| - 2])
  {
  }

  /** The resolution as written cuts whitespace out of the middle of a text that ends in a
      space, U+2028 and the glue marker: the resolved text is then no prefix of the text. */
  lemma AsWrittenTrimIsNoPrefix(glue: string)
    ensures var text := "a \U{2028}" + glue;
            && Resolve(Some(text), [glue], glue) == Resolution(Some("a\U{2028}"), glue)
            && !("a\U{2028}" <= text)
  {
    var text := "a \U{2028}" + glue;
    assert text[|text| - |glue|..] == glue;
    var cut := text[..|text| - |glue|];
    assert cut == "a \U{2028}";
    assert TrimTrailingWhitespace("a ") == "a" by {
      assert "a "[..1] == "a";
    }
    assert "a \U{2028}"[..2] == "a ";
    assert ReplaceTrailingWhitespaceAsWritten(cut) == "a\U{2028}";
    assert text[1] == ' ';
  }

  /** As intended, every resolved text is the original text with at most one marker taken
      off its end, and whitespace before that marker taken off only when it is the glue
      marker, which then leaves no trailing whitespace. So the resolved text is a prefix. */
  lemma ResolvedShape(s: string, markers: seq<string>, glue: string)
    ensures var res := ResolveIntended(Some(s), markers, glue);
            var r := res.resolvedText.value;
            && r <= s
            && |r| + |res.marker| <= |s|
            && s == r + s[|r|..|s| - |res.marker|] + res.marker
            && (forall i :: |r| <= i < |s| - |res.marker| ==> IsWhitespace(s[i]))
            && (res.marker != glue ==> s == r + res.marker)
            && (res.marker == glue && glue != "" ==> r == [] || !IsWhitespace(r[|r| - 1]))
  {
  }

  class CommentText {
    const text: Option<string>
    var resolvedText: Option<string>
    var marker: Option<string>
    var enabled: bool

    /** `CommentText(text)`: nothing resolved yet, so `resolvedText` and `marker` are null
        and the comment is disabled. */
    constructor (text: Option<string>)
      ensures this.text == text
      ensures resolvedText == None && marker == None && !enabled
    {
      this.text := text;
      resolvedText := None;
      marker := None;
      enabled := false;
    }

    /** `resolveText(...)` with the marker list and the glue marker of `RrdGraphConstants`. */
    method ResolveText(markers: seq<string>, glue: string)
      modifies this`resolvedText, this`marker, this`enabled
      ensures resolvedText == Resolve(text, markers, glue).resolvedText
      ensures marker == Some(Resolve(text, markers, glue).marker)
      ensures text.None? ==> resolvedText == None && marker == Some("")
      ensures text.Some? ==> resolvedText.Some? && |resolvedText.value| + |marker.value| <= |text.value|
      ensures text.Some? && marker.value != glue ==> resolvedText.value + marker.value == text.value
      ensures enabled <==> resolvedText.Some?
    {
      resolvedText := text;
      marker := Some("");
      if resolvedText.Some? {
        var i := 0;
        while i < |markers|
          invariant 0 <= i <= |markers|
          invariant FirstMarkerFrom(markers, text.value, i) == FirstMarkerFrom(markers, text.value, 0)
          invariant resolvedText == text && marker == Some("")
        {
          var someMarker := markers[i];
          if EndsWith(resolvedText.value, someMarker) {
            marker := Some(someMarker);
            resolvedText := Some(resolvedText.value[..|resolvedText.value| - |someMarker|]);
            TrimIfGlue(glue);
            break;
          }
          i := i + 1;
        }
        ResolvedShapeAsWritten(text.value, markers, glue);
      }
      enabled := resolvedText.Some?;
    }

    /** `trimIfGlue()`: for the glue marker, the resolved text goes through the trailing
        whitespace regular expression; otherwise nothing changes. `marker.equals` throws on
        a null marker, and the trim on a null text, so both are the caller's obligation. */
    method TrimIfGlue(glue: string)
      requires marker.Some?
      requires marker == Some(glue) ==> resolvedText.Some?
      modifies this`resolvedText
      ensures marker == Some(glue) ==> resolvedText == Some(ReplaceTrailingWhitespaceAsWritten(old(resolvedText).value))
      ensures marker != Some(glue) ==> resolvedText == old(resolvedText)
    {
      if marker.value == glue {
        resolvedText := Some(ReplaceTrailingWhitespaceAsWritten(resolvedText.value));
      }
    }

    /** `isPrint()`: a plain comment is never a PRINT element. */
    function IsPrint(): (isPrint: bool)
      ensures !isPrint
    {
      false
    }

    /** `isValidGraphElement()`: exactly when the comment is enabled, since it is no PRINT. */
    function IsValidGraphElement(): (valid: bool)
      reads this
      ensures valid <==> enabled
    {
      !IsPrint() && enabled
    }
  }
}
