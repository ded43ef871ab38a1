/**
 * The request-header text of a service, "k1:v1,k2:v2": the lenient parser
 * `parseHeaders` (common/ext.kt) and the serialiser the add and edit screens
 * use, `joinToString(",") { "${it.first}:${it.second}" }`.
 */
module Headers {
  import opened Wrappers
  import opened Strings

  /** A header as a (name, value) pair. */
  type Header = (string, string)

  /** One comma segment: a header when it holds a ':', nothing otherwise. */
  function ParseSegment(segment: string): (r: Option<Header>)
    ensures r.Some? <==> ':' in segment
  {
    var parts := Split(segment, ':');
    if |parts| >= 2 then Some((Trim(parts[0]), Trim(parts[1]))) else None
  }

  /** A header the parser can produce: both sides trimmed and free of ',' and ':'. */
  predicate Clean(h: Header) {
    && IsTrimmed(h.0) && IsTrimmed(h.1)
    && ',' !in h.0 && ':' !in h.0 && ',' !in h.1 && ':' !in h.1
  }

  /** Kotlin's `mapNotNull` over the segments with `ParseSegment`. */
  function ParseSegments(segments: seq<string>): (r: seq<Header>)
    requires forall i :: 0 <= i < |segments| ==> ',' !in segments[i]
    ensures |r| <= |segments|
    ensures forall i :: 0 <= i < |r| ==> Clean(r[i])
  {
    if |segments| == 0 then []
    else
      var rest := ParseSegments(segments[1..]);
      ParseSegmentClean(segments[0]);
      match ParseSegment(segments[0])
      case Some(h) => [h] + rest
      case None => rest
  }

  /** A segment without ',' parses to a clean header, if to any. */
  lemma ParseSegmentClean(segment: string)
    requires ',' !in segment
    ensures ParseSegment(segment).Some? ==> Clean(ParseSegment(segment).value)
  {
    var parts := Split(segment, ':');
    if |parts| >= 2 {
      JoinKeepsChars(parts, ':', 0);
      JoinKeepsChars(parts, ':', 1);
      assert ',' !in parts[0] && ',' !in parts[1];
    }
  }

  /**
   * `parseHeaders(headers)`: nothing for a blank text, otherwise one header per
   * comma segment that holds a ':', in segment order.
   */
  function ParseHeaders(headers: string): (r: seq<Header>)
    ensures IsBlank(headers) ==> r == []
    ensures |r| <= |Split(headers, ',')|
    ensures forall i :: 0 <= i < |r| ==> Clean(r[i])
  {
    if IsBlank(headers) then [] else ParseSegments(Split(headers, ','))
  }

  /** The text one header is written as: "name:value". */
  function Render(h: Header): string {
    h.0 + [':'] + h.1
  }

  function Renders(hs: seq<Header>): (r: seq<string>)
    ensures |r| == |hs|
    ensures forall i :: 0 <= i < |hs| ==> r[i] == Render(hs[i])
  {
    seq(|hs|, i requires 0 <= i < |hs| => Render(hs[i]))
  }

  /** `headersList.joinToString(",") { "${it.first}:${it.second}" }`. */
  function Serialize(hs: seq<Header>): string {
    Join(Renders(hs), ',')
  }

  // ----- an independent reading of a segment and of the whole text -----

  /**
   * The header of a segment holding a ':', read by position: the name is the
   * text before the first ':', the value the text between the first ':' and the
   * next one (or the end), both trimmed.
   */
  function SegmentHeader(segment: string): Header
    requires ':' in segment
  {
    var i := IndexOf(segment, ':');
    (Trim(UpTo(segment, ':')), Trim(UpTo(segment[i + 1..], ':')))
  }

  /** The segments that hold a ':', in order. */
  function WithColon(segments: seq<string>): (r: seq<string>)
    ensures |r| <= |segments|
    ensures forall i :: 0 <= i < |r| ==> ':' in r[i]
  {
    if |segments| == 0 then []
    else if ':' in segments[0] then [segments[0]] + WithColon(segments[1..])
    else WithColon(segments[1..])
  }

  lemma SegmentHeaderAgrees(segment: string)
    requires ':' in segment
    ensures ParseSegment(segment) == Some(SegmentHeader(segment))
  {
    var i := IndexOf(segment, ':');
    var parts := Split(segment, ':');
    SplitAt(segment, ':');
    assert |parts| >= 2;
    assert parts[1..] == Split(segment[i + 1..], ':');
    SplitFirst(segment, ':');
    SplitFirst(segment[i + 1..], ':');
    assert parts[0] == UpTo(segment, ':');
    assert parts[1] == UpTo(segment[i + 1..], ':');
    assert ParseSegment(segment) == Some((Trim(parts[0]), Trim(parts[1])));
  }

  /** `SegmentHeader` applied to every segment. */
  function SegmentHeaders(segments: seq<string>): (r: seq<Header>)
    requires forall i :: 0 <= i < |segments| ==> ':' in segments[i]
    ensures |r| == |segments|
  {
    if |segments| == 0 then [] else [SegmentHeader(segments[0])] + SegmentHeaders(segments[1..])
  }

  /**
   * The parser keeps exactly the segments that hold a ':', in order, and reads
   * each of them by position: a segment without ':' is dropped, and with
   * several ':' only the text up to the second one counts.
   */
  lemma {:induction false} ParseSegmentsKeepsColonSegments(segments: seq<string>)
    requires forall i :: 0 <= i < |segments| ==> ',' !in segments[i]
    ensures ParseSegments(segments) == SegmentHeaders(WithColon(segments))
  {
    if |segments| > 0 {
      var rest := segments[1..];
      ParseSegmentsKeepsColonSegments(rest);
      if ':' in segments[0] {
        SegmentHeaderAgrees(segments[0]);
        var kept := WithColon(segments);
        assert kept == [segments[0]] + WithColon(rest);
        assert kept[1..] == WithColon(rest);
        assert SegmentHeaders(kept) == [SegmentHeader(segments[0])] + SegmentHeaders(WithColon(rest));
      } else {
        assert WithColon(segments) == WithColon(rest);
      }
    }
  }

  /** For a non-blank text: one header per segment holding a ':', in order. */
  lemma ParseHeadersKeepsColonSegments(headers: string)
    requires !IsBlank(headers)
    ensures ParseHeaders(headers) == SegmentHeaders(WithColon(Split(headers, ',')))
    ensures |ParseHeaders(headers)| == |WithColon(Split(headers, ','))|
  {
    ParseSegmentsKeepsColonSegments(Split(headers, ','));
  }

  // ----- round trip and idempotence -----

  lemma RenderSplits(h: Header)
    requires ':' !in h.0 && ':' !in h.1
    ensures Split(Render(h), ':') == [h.0, h.1]
  {
    assert Join([h.0, h.1], ':') == Render(h);
    SplitJoin([h.0, h.1], ':');
  }

  /** A clean header renders without ',' and parses back to itself. */
  lemma RenderClean(h: Header)
    requires Clean(h)
    ensures ',' !in Render(h)
    ensures ParseSegment(Render(h)) == Some(h)
  {
    CharsOfConcat(h.0, [':'], ',');
    CharsOfConcat(h.0 + [':'], h.1, ',');
    RenderSplits(h);
  }

  lemma RendersWithoutComma(hs: seq<Header>)
    requires forall i :: 0 <= i < |hs| ==> Clean(hs[i])
    ensures forall i :: 0 <= i < |hs| ==> ',' !in Renders(hs)[i]
  {
    forall i | 0 <= i < |hs| ensures ',' !in Renders(hs)[i] {
      RenderClean(hs[i]);
    }
  }

  /** `mapNotNull` on a segment that parses: its header, then the rest. */
  lemma ParseSegmentsCons(segments: seq<string>, h: Header)
    requires |segments| > 0 && forall i :: 0 <= i < |segments| ==> ',' !in segments[i]
    requires ParseSegment(segments[0]) == Some(h)
    ensures ParseSegments(segments) == [h] + ParseSegments(segments[1..])
  {
  }

  /** Segments that are the renderings of clean headers, one for one. */
  predicate RenderedAs(hs: seq<Header>, rs: seq<string>) {
    |rs| == |hs|
    && (forall i :: 0 <= i < |hs| ==> Clean(hs[i]) && rs[i] == Render(hs[i]))
    && (forall i :: 0 <= i < |rs| ==> ',' !in rs[i])
  }

  lemma RenderedTail(hs: seq<Header>, rs: seq<string>)
    requires RenderedAs(hs, rs) && |hs| > 0
    ensures RenderedAs(hs[1..], rs[1..])
  {
  }

  /** One step: the first rendering parses to the first header. */
  lemma ParseRenderedStep(hs: seq<Header>, rs: seq<string>)
    requires RenderedAs(hs, rs) && |hs| > 0
    requires ParseSegments(rs[1..]) == hs[1..]
    ensures ParseSegments(rs) == hs
  {
    RenderClean(hs[0]);
    ParseSegmentsCons(rs, hs[0]);
    assert hs == [hs[0]] + hs[1..];
  }

  /** Renderings of clean headers parse back to those headers. */
  lemma {:induction false} ParseRendered(hs: seq<Header>, rs: seq<string>)
    requires RenderedAs(hs, rs)
    ensures ParseSegments(rs) == hs
  {
    if |hs| > 0 {
      RenderedTail(hs, rs);
      ParseRendered(hs[1..], rs[1..]);
      ParseRenderedStep(hs, rs);
    }
  }

  lemma ParseRenders(hs: seq<Header>)
    requires forall i :: 0 <= i < |hs| ==> Clean(hs[i])
    ensures forall i :: 0 <= i < |hs| ==> ',' !in Renders(hs)[i]
    ensures ParseSegments(Renders(hs)) == hs
  {
    RendersWithoutComma(hs);
    ParseRendered(hs, Renders(hs));
  }

  /** Serialising clean headers and parsing the text gives the same list back. */
  lemma RoundTrip(hs: seq<Header>)
    requires forall i :: 0 <= i < |hs| ==> Clean(hs[i])
    ensures ParseHeaders(Serialize(hs)) == hs
  {
    var text := Serialize(hs);
    var rs := Renders(hs);
    ParseRenders(hs);
    if |hs| == 0 {
      assert text == "";
    } else {
      SplitJoin(rs, ',');
      assert Split(text, ',') == rs;
      var first := Render(hs[0]);
      JoinStartsWithFirst(rs, ',');
      assert rs[0] == first;
      assert first[|hs[0].0|] == ':';
      assert text[|hs[0].0|] == ':';
      assert !IsBlank(text);
      assert ParseHeaders(text) == ParseSegments(rs);
    }
  }

  /** Parsing, serialising and parsing again is the same as parsing once. */
  lemma ParseIdempotent(headers: string)
    ensures ParseHeaders(Serialize(ParseHeaders(headers))) == ParseHeaders(headers)
  {
    RoundTrip(ParseHeaders(headers));
  }

  // ----- the behaviours the call sites rely on, on concrete texts -----

  lemma EmptyText()
    ensures ParseHeaders("") == []
    ensures ParseHeaders(" \t ") == []
  {
    assert IsBlank("");
    assert IsWhitespace(' ') && IsWhitespace('\t');
    assert IsBlank(" \t ");
  }

  lemma TwoHeaders()
    ensures ParseHeaders("A:1,B:2") == [("A", "1"), ("B", "2")]
  {
    var hs := [("A", "1"), ("B", "2")];
    assert Render(hs[0]) == "A:1" && Render(hs[1]) == "B:2";
    assert Renders(hs) == ["A:1", "B:2"];
    assert Join(["A:1", "B:2"], ',') == "A:1,B:2";
    assert Clean(hs[0]) && Clean(hs[1]);
    RoundTrip(hs);
  }

  lemma OneHeader()
    ensures ParseHeaders("A:1") == [("A", "1")]
  {
    var hs := [("A", "1")];
    assert Render(hs[0]) == "A:1";
    assert Renders(hs) == ["A:1"];
    assert Join(["A:1"], ',') == "A:1";
    assert Clean(hs[0]);
    RoundTrip(hs);
  }

  /** "bad,A:1" reads as the single header ("A", "1"). */
  lemma SegmentWithoutColonDropped()
    ensures ParseHeaders("bad,A:1") == [("A", "1")]
  {
    assert "bad,A:1" == "bad" + [','] + "A:1";
    SegmentWithoutColonIgnored("bad", "A:1");
    OneHeader();
  }

  /**
   * With several ':' in a segment, the value is only the text between the first
   * and the second one: "Referer: http://x" reads as ("Referer", "http").
   */
  lemma ValueStopsAtSecondColon(name: string, value: string, rest: string)
    requires ':' !in name && ':' !in value
    requires ',' !in name && ',' !in value && ',' !in rest
    ensures ParseHeaders(name + [':'] + value + [':'] + rest) == [(Trim(name), Trim(value))]
  {
    var tail := value + [':'] + rest;
    var text := name + [':'] + tail;
    assert text == name + [':'] + value + [':'] + rest;
    assert text[|name|] == ':';
    assert !IsBlank(text);
    CharsOfConcat(name, [':'] + tail, ',');
    SplitWithout(text, ',');
    UpToPrefix(name, ':', tail);
    UpToPrefix(value, ':', rest);
    SegmentHeaderAgrees(text);
    assert text[IndexOf(text, ':') + 1..] == tail;
    assert ParseSegments([text]) == [SegmentHeader(text)];
  }

  /**
   * A segment without ':' is dropped silently and does not disturb the rest:
   * "bad,A:1" reads like "A:1".
   */
  lemma SegmentWithoutColonIgnored(bad: string, rest: string)
    requires ':' !in bad && ',' !in bad
    ensures ParseHeaders(bad + [','] + rest) == ParseHeaders(rest)
  {
    var text := bad + [','] + rest;
    SplitAfterSegment(bad, rest);
    var segs := Split(text, ',');
    assert segs[1..] == Split(rest, ',');
    ParseSegmentsSkip(segs);
    assert text[|bad|] == ',' && !IsBlank(text);
    if IsBlank(rest) {
      NoColonNoHeaders(rest);
    }
  }

  lemma SplitAfterSegment(first: string, rest: string)
    requires ',' !in first
    ensures Split(first + [','] + rest, ',') == [first] + Split(rest, ',')
  {
    var text := first + [','] + rest;
    UpToPrefix(first, ',', rest);
    SplitAt(text, ',');
    assert text[|first| + 1..] == rest;
  }

  /** `mapNotNull` on a segment without ':': only the rest counts. */
  lemma ParseSegmentsSkip(segments: seq<string>)
    requires |segments| > 0 && forall i :: 0 <= i < |segments| ==> ',' !in segments[i]
    requires ':' !in segments[0]
    ensures ParseSegments(segments) == ParseSegments(segments[1..])
  {
  }

  /** A text without ':' yields no header. */
  lemma NoColonNoHeaders(text: string)
    requires ':' !in text
    ensures ParseSegments(Split(text, ',')) == []
    ensures ParseHeaders(text) == []
  {
    var segs := Split(text, ',');
    forall i | 0 <= i < |segs| ensures ':' !in segs[i] {
      JoinKeepsChars(segs, ',', i);
    }
    ParseSegmentsKeepsColonSegments(segs);
    NoneWithColon(segs);
  }

  lemma {:induction false} NoneWithColon(segs: seq<string>)
    requires forall i :: 0 <= i < |segs| ==> ':' !in segs[i]
    ensures WithColon(segs) == []
  {
    if |segs| > 0 {
      NoneWithColon(segs[1..]);
    }
  }
}
