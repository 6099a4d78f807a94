/**
  Text helpers for the PDF export: detecting Chinese characters, choosing a
  font family, cleaning text before it is drawn, and shortening text with an
  ellipsis until it fits a width.
 */
module FontUtils {
  import opened JsStrings

  /** Family name of the embedded CJK font, and the PDF library's default. */
  const CjkFontFamily: string := "NotoSansCJKSC"
  const DefaultFont: string := "helvetica"

  const Ellipsis: string := "..."

  /** The CJK Unified Ideographs block, U+4E00 to U+9FFF. */
  predicate IsChinese(c: char) {
    '\U{4E00}' <= c <= '\U{9FFF}'
  }

  /** True exactly when some character of `text` is a CJK ideograph. */
  function ContainsChinese(text: string): (r: bool)
    ensures r <==> exists i :: 0 <= i < |text| && IsChinese(text[i])
    ensures text == [] ==> !r
  {
    if text == [] then false
    else IsChinese(text[0]) || ContainsChinese(text[1..])
  }

  /** The CJK family for text with a Chinese character, the default otherwise. */
  function GetFontForText(text: string): (font: string)
    ensures font == CjkFontFamily <==> exists i :: 0 <= i < |text| && IsChinese(text[i])
    ensures font == DefaultFont <==> forall i :: 0 <= i < |text| ==> !IsChinese(text[i])
  {
    if ContainsChinese(text) then CjkFontFamily else DefaultFont
  }

  predicate IsAngle(c: char) {
    c == '<' || c == '>'
  }

  predicate IsLineBreak(c: char) {
    c == '\r' || c == '\n'
  }

  /** `replace(/[<>]/g, '')`: drops every angle bracket, keeps the rest in order. */
  function RemoveAngles(s: string): (r: string)
    ensures |r| <= |s|
    ensures |r| == |s| - Count(s, '<') - Count(s, '>')
    ensures forall i :: 0 <= i < |r| ==> !IsAngle(r[i])
    ensures (forall i :: 0 <= i < |s| ==> !IsAngle(s[i])) ==> r == s
  {
    if s == [] then []
    else (if IsAngle(s[0]) then [] else [s[0]]) + RemoveAngles(s[1..])
  }

  /** Removing angle brackets distributes over concatenation; with the
      one-character case this says exactly which characters are kept. */
  lemma {:induction false} RemoveAnglesAppend(a: string, b: string)
    ensures RemoveAngles(a + b) == RemoveAngles(a) + RemoveAngles(b)
  {
    if a != [] {
      var head := if IsAngle(a[0]) then [] else [a[0]];
      assert (a + b)[0] == a[0];
      assert (a + b)[1..] == a[1..] + b;
      assert RemoveAngles(a + b) == head + RemoveAngles(a[1..] + b);
      RemoveAnglesAppend(a[1..], b);
      assert RemoveAngles(a) == head + RemoveAngles(a[1..]);
    } else {
      assert a + b == b;
    }
  }

  /** `replace(/[\r\n]/g, ' ')`: every line break becomes one space. */
  function FlattenLineBreaks(s: string): (r: string)
    ensures |r| == |s|
    ensures forall i :: 0 <= i < |r| ==> !IsLineBreak(r[i])
    ensures forall i :: 0 <= i < |s| && !IsLineBreak(s[i]) ==> r[i] == s[i]
    ensures forall i :: 0 <= i < |s| && IsLineBreak(s[i]) ==> r[i] == ' '
  {
    seq(|s|, i requires 0 <= i < |s| => if IsLineBreak(s[i]) then ' ' else s[i])
  }

  /** Text made safe for the PDF: no angle brackets, no line breaks, and no
      whitespace at either end; otherwise the characters of the input in
      order. */
  function EncodePdfText(text: string): (r: string)
    ensures text == [] ==> r == []
    ensures forall i :: 0 <= i < |r| ==> !IsAngle(r[i]) && !IsLineBreak(r[i])
    ensures IsTrimmed(r)
    ensures TrimOf(r, FlattenLineBreaks(RemoveAngles(text)))
  {
    var cleaned := FlattenLineBreaks(RemoveAngles(text));
    assert forall i :: 0 <= i < |cleaned| ==> !IsAngle(cleaned[i]);
    Trim(cleaned)
  }

  /** Text without angle brackets, without line breaks and without outer
      whitespace comes out of the encoder unchanged. */
  lemma EncodePdfTextFixes(r: string)
    requires forall i :: 0 <= i < |r| ==> !IsAngle(r[i]) && !IsLineBreak(r[i])
    requires IsTrimmed(r)
    ensures EncodePdfText(r) == r
  {
    var kept := RemoveAngles(r);
    assert kept == r;
    var flat := FlattenLineBreaks(kept);
    assert forall i :: 0 <= i < |flat| ==> flat[i] == r[i];
    assert flat == r;
    TrimOfTrimmed(r);
    assert EncodePdfText(r) == Trim(flat);
  }

  /** Encoding already-encoded text changes nothing. */
  lemma EncodePdfTextIdempotent(text: string)
    ensures EncodePdfText(EncodePdfText(text)) == EncodePdfText(text)
  {
    EncodePdfTextFixes(EncodePdfText(text));
  }

  /** The length of the prefix of `text` that the truncation loop keeps when
      it starts from the first `n` characters: the longest `k <= n` whose
      prefix plus the ellipsis is no wider than `maxWidth`, else 0. */
  function KeptLength(text: string, width: string -> real, maxWidth: real, n: nat): (k: nat)
    requires n <= |text|
    ensures k <= n
    ensures 0 < k ==> width(text[..k] + Ellipsis) <= maxWidth
    ensures forall j :: k < j <= n ==> width(text[..j] + Ellipsis) > maxWidth
    decreases n
  {
    if n == 0 || width(text[..n] + Ellipsis) <= maxWidth then n
    else KeptLength(text, width, maxWidth, n - 1)
  }

  /** The kept length is the only length with the two properties above. */
  lemma {:induction false} KeptLengthUnique(text: string, width: string -> real, maxWidth: real, n: nat, k: nat)
    requires k <= n <= |text|
    requires 0 < k ==> width(text[..k] + Ellipsis) <= maxWidth
    requires forall j :: k < j <= n ==> width(text[..j] + Ellipsis) > maxWidth
    ensures KeptLength(text, width, maxWidth, n) == k
    decreases n
  {
    if k < n {
      KeptLengthUnique(text, width, maxWidth, n - 1, k);
    }
  }

  /** What the truncation returns: the empty string for empty text, `text`
      when the loop drops nothing, else the kept prefix and an ellipsis. */
  function Truncated(text: string, width: string -> real, maxWidth: real): (r: string)
    ensures r == [] <==> text == []
    ensures |r| <= |text| + |Ellipsis|
  {
    if text == [] then ""
    else
      var k := KeptLength(text, width, maxWidth, |text|);
      if k == |text| then text else text[..k] + Ellipsis
  }

  /** Drops one trailing character at a time while the text plus the ellipsis
      is wider than `maxWidth`. `width` is the PDF library's text measurement;
      `fontSize` is accepted and not used, as in the source. */
  method TruncateTextForPdf(text: string, maxWidth: real, fontSize: real, width: string -> real)
    returns (r: string)
    ensures r == Truncated(text, width, maxWidth)
    ensures text == [] ==> r == []
    ensures text != [] && width(text + Ellipsis) <= maxWidth ==> r == text
    ensures text != [] && width(text + Ellipsis) > maxWidth ==>
              exists k :: 0 <= k < |text| && r == text[..k] + Ellipsis
  {
    if text == [] {
      return "";
    }
    var truncated := text;
    while width(truncated + Ellipsis) > maxWidth && |truncated| > 0
      invariant |truncated| <= |text| && truncated == text[..|truncated|]
      invariant forall j :: |truncated| < j <= |text| ==> width(text[..j] + Ellipsis) > maxWidth
      decreases |truncated|
    {
      truncated := truncated[..|truncated| - 1];
    }
    KeptLengthUnique(text, width, maxWidth, |text|, |truncated|);
    if truncated == text {
      r := text;
    } else {
      r := truncated + Ellipsis;
    }
  }

  /** The result is empty, `text` itself, or a strict prefix of `text`
      followed by the ellipsis; in the last case the prefix is the longest one
      that fits together with the ellipsis. */
  lemma TruncatedShape(text: string, width: string -> real, maxWidth: real)
    ensures var r := Truncated(text, width, maxWidth);
      || (text == [] && r == [])
      || (text != [] && r == text)
      || exists k :: 0 <= k < |text| && r == text[..k] + Ellipsis
           && (0 < k ==> width(text[..k] + Ellipsis) <= maxWidth)
           && (forall j :: k < j <= |text| ==> width(text[..j] + Ellipsis) > maxWidth)
  {
  }

  /** Text is kept whole exactly when it fits together with the ellipsis. */
  lemma TruncatedKeepsIffFits(text: string, width: string -> real, maxWidth: real)
    requires text != []
    ensures KeptLength(text, width, maxWidth, |text|) == |text| <==> width(text + Ellipsis) <= maxWidth
  {
    assert text[..|text|] == text;
  }

  /** Text that fits without the ellipsis can still be cut: with width equal
      to length and a limit of 3, "abc" becomes "...". */
  lemma FittingTextCanBeTruncated()
    ensures var width := (s: string) => |s| as real;
      width("abc") <= 3.0 && Truncated("abc", width, 3.0) == "..."
  {
    var width := (s: string) => |s| as real;
    var text := "abc";
    KeptLengthUnique(text, width, 3.0, 3, 0);
  }

  /** The loop can stop at a prefix that, with the ellipsis, spells `text`
      again: with width equal to length and a limit of 5, "ab..." is too wide
      with an ellipsis, is cut to "ab", and comes back as "ab...". */
  lemma TruncationCanSpellTextAgain()
    ensures var width := (s: string) => |s| as real;
      width("ab..." + Ellipsis) > 5.0 && Truncated("ab...", width, 5.0) == "ab..."
  {
    var width := (s: string) => |s| as real;
    var text := "ab...";
    assert text[..2] == "ab";
    KeptLengthUnique(text, width, 5.0, 5, 2);
  }
}
