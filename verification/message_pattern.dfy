/**
 * The fallback-message extraction applied to an unstructured stream
 * failure: `Pattern.compile("Message: (.*)").matcher(text)`, then `find()`
 * and `group(1)`.
 *
 * `find()` reports the leftmost match. The literal prefix fixes where a
 * match can start, and `(.*)` is greedy, so group 1 is the longest run of
 * characters after the leftmost "Message: " that contains no line
 * terminator (without DOTALL, `.` matches anything except the five line
 * terminators of `java.util.regex`).
 */
module MessagePattern {
  import opened Wrappers

  /** The literal part of the pattern. */
  const Marker: string := "Message: "

  /** The characters `.` refuses to match: \n, \r, U+0085, U+2028, U+2029. */
  predicate IsLineTerminator(c: char)
  {
    c == '\n' || c == '\r' || c == '\U{0085}' || c == '\U{2028}' || c == '\U{2029}'
  }

  predicate NoLineTerminator(t: string)
  {
    forall i :: 0 <= i < |t| ==> !IsLineTerminator(t[i])
  }

  /** `pat` occurs in `s` starting at index `i`. */
  predicate OccursAt(s: string, pat: string, i: nat)
  {
    i + |pat| <= |s| && s[i..i + |pat|] == pat
  }

  ghost predicate Contains(s: string, pat: string)
  {
    exists i: nat :: OccursAt(s, pat, i)
  }

  /** `k` is the leftmost position where the marker occurs. */
  ghost predicate IsLeftmostMarker(s: string, k: nat)
  {
    OccursAt(s, Marker, k) && forall j: nat :: j < k ==> !OccursAt(s, Marker, j)
  }

  /**
   * Starting right after a marker at `k`, `t` is the maximal run of
   * characters without a line terminator.
   */
  ghost predicate CapturedAfter(s: string, k: nat, t: string)
  {
    var start := k + |Marker|;
    && start + |t| <= |s|
    && s[start..start + |t|] == t
    && NoLineTerminator(t)
    && (start + |t| == |s| || IsLineTerminator(s[start + |t|]))
  }

  /**
   * Reference meaning of `find()` followed by `group(1)`: the pattern
   * matches leftmost at some `k` and the group captures `t`.
   */
  ghost predicate FindsGroup(s: string, t: string)
  {
    exists k: nat :: IsLeftmostMarker(s, k) && CapturedAfter(s, k, t)
  }

  /** The leftmost occurrence of `pat` in `s` at or after `from`. */
  function FindFrom(s: string, pat: string, from: nat): (r: Option<nat>)
    requires from <= |s|
    ensures r.Some? ==> from <= r.value && OccursAt(s, pat, r.value)
    ensures r.Some? ==> forall j: nat :: from <= j < r.value ==> !OccursAt(s, pat, j)
    ensures r.None? ==> forall j: nat :: from <= j ==> !OccursAt(s, pat, j)
    decreases |s| - from
  {
    if OccursAt(s, pat, from) then Some(from)
    else if from == |s| then None
    else FindFrom(s, pat, from + 1)
  }

  /** The end of the line that contains position `from`. */
  function LineEnd(s: string, from: nat): (e: nat)
    requires from <= |s|
    ensures from <= e <= |s|
    ensures forall i :: from <= i < e ==> !IsLineTerminator(s[i])
    ensures e == |s| || IsLineTerminator(s[e])
    decreases |s| - from
  {
    if from == |s| || IsLineTerminator(s[from]) then from else LineEnd(s, from + 1)
  }

  /** Group 1 of the first match of `Message: (.*)` in `message`, if any. */
  function ExtractMessage(message: string): (r: Option<string>)
    ensures r.Some? <==> Contains(message, Marker)
    ensures r.Some? ==> FindsGroup(message, r.value)
  {
    match FindFrom(message, Marker, 0)
    case None => None
    case Some(k) =>
      var start := k + |Marker|;
      var t := message[start..LineEnd(message, start)];
      assert IsLeftmostMarker(message, k) && CapturedAfter(message, k, t);
      Some(t)
  }

  /**
   * The converse of `ExtractMessage`'s contract: whatever the reference
   * meaning of the match captures is exactly what is extracted, so the
   * extracted text is uniquely determined.
   */
  lemma {:induction false} ExtractMessageComplete(s: string, t: string)
    requires FindsGroup(s, t)
    ensures ExtractMessage(s) == Some(t)
  {
    var k: nat :| IsLeftmostMarker(s, k) && CapturedAfter(s, k, t);
    LeftmostIsFound(s, k);
    CapturedRunIsLine(s, k + |Marker|, t);
  }

  /** The leftmost marker position is the one the search finds. */
  lemma LeftmostIsFound(s: string, k: nat)
    requires IsLeftmostMarker(s, k)
    ensures FindFrom(s, Marker, 0) == Some(k)
  {
    var r := FindFrom(s, Marker, 0);
    assert OccursAt(s, Marker, k);
    assert r.Some? && OccursAt(s, Marker, r.value);
  }

  /** A maximal run without line terminator starting at `start` ends where `LineEnd` says. */
  lemma CapturedRunIsLine(s: string, start: nat, t: string)
    requires start + |t| <= |s| && s[start..start + |t|] == t && NoLineTerminator(t)
    requires start + |t| == |s| || IsLineTerminator(s[start + |t|])
    ensures LineEnd(s, start) == start + |t|
  {
    var e := LineEnd(s, start);
    assert forall i :: start <= i < start + |t| ==> s[i] == t[i - start];
  }

  /**
   * The extracted text contains no line terminator, and "Message: " followed
   * by it is a substring of the message.
   */
  lemma {:induction false} ExtractedTextIsOneLine(s: string)
    requires ExtractMessage(s).Some?
    ensures NoLineTerminator(ExtractMessage(s).value)
    ensures Contains(s, Marker + ExtractMessage(s).value)
  {
    var k := FindFrom(s, Marker, 0).value;
    var start := k + |Marker|;
    var e := LineEnd(s, start);
    var t := s[start..e];
    assert ExtractMessage(s).value == t;
    assert s[k..e] == s[k..start] + t;
    assert OccursAt(s, Marker + t, k);
  }

  /**
   * A stream-reader message: the text after the first "Message: " up to the
   * line break is extracted, and a later "Message: " line is ignored.
   */
  lemma ExtractMessageExample()
    ensures ExtractMessage("at\n" + Marker + "bad\n" + Marker + "x") == Some("bad")
  {
    var s := "at\n" + Marker + "bad\n" + Marker + "x";
    assert s[3..12] == Marker;
    assert s[0] != 'M' && s[1] != 'M' && s[2] != 'M' && Marker[0] == 'M';
    assert forall j: nat :: j < 3 ==> s[j..j + |Marker|][0] == s[j];
    assert s[12..15] == "bad" && s[15] == '\n';
    assert IsLeftmostMarker(s, 3);
    assert CapturedAfter(s, 3, "bad");
    ExtractMessageComplete(s, "bad");
  }
}
