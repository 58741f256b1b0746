/**
 * The expression-only helpers of the browser client: the identifier format
 * check, HTML escaping, the preview truncation, the render filter, the
 * pagination button flags and the relative-time label.
 */
module ClientHelpers {
  import opened Opt
  import opened ObjectId

  // ---------------------------------------------------------------------
  // isValidObjectId: the anchored pattern ^[0-9a-fA-F]{24}$
  // ---------------------------------------------------------------------

  /** `s` matches `[0-9a-fA-F]{n}$`: the pattern is consumed one hex digit at a time, then the end anchor. */
  predicate MatchesHexRun(s: string, n: nat)
    decreases n
  {
    if n == 0 then s == [] else |s| > 0 && IsHexDigit(s[0]) && MatchesHexRun(s[1..], n - 1)
  }

  /**
   * `isValidObjectId(id)`: a non-empty string that the regular expression
   * accepts. A match consumes the whole string, so the pattern is run over
   * `|id|` characters once the length is known to be 24.
   */
  predicate IsValidObjectId(id: string) {
    id != "" && |id| == ObjectIdLength && MatchesHexRun(id, |id|)
  }

  /** The pattern, read as a set of strings: exactly `n` characters, each a hex digit. */
  lemma {:induction false} MatchesHexRunIff(s: string, n: nat)
    ensures MatchesHexRun(s, n) <==> |s| == n && forall i :: 0 <= i < |s| ==> IsHexDigit(s[i])
    decreases n
  {
    if n > 0 && |s| > 0 {
      MatchesHexRunIff(s[1..], n - 1);
      if |s| == n && forall i :: 0 <= i < |s| ==> IsHexDigit(s[i]) {
        assert forall i :: 0 <= i < |s[1..]| ==> IsHexDigit(s[1..][i]) by {
          forall i | 0 <= i < |s[1..]| ensures IsHexDigit(s[1..][i]) { assert s[1..][i] == s[i + 1]; }
        }
      }
      if MatchesHexRun(s, n) {
        forall i | 0 <= i < |s| ensures IsHexDigit(s[i]) {
          if i > 0 { assert s[i] == s[1..][i - 1]; }
        }
      }
    }
  }

  /** A valid identifier is exactly 24 characters, each in `[0-9a-fA-F]`. */
  lemma ValidObjectIdIff(id: string)
    ensures IsValidObjectId(id) <==> HexId(id)
  {
    MatchesHexRunIff(id, ObjectIdLength);
  }

  // ---------------------------------------------------------------------
  // escapeHtml
  // ---------------------------------------------------------------------

  /** The characters the escaping pattern `[&<>"']` matches. */
  predicate IsMarkupSpecial(c: char) {
    c == '&' || c == '<' || c == '>' || c == '"' || c == '\''
  }

  /** The replacement table of `escapeHtml`. */
  function EscapeChar(c: char): (r: string)
    ensures IsMarkupSpecial(c) ==> |r| > 1 && r[0] == '&'
    ensures !IsMarkupSpecial(c) ==> r == [c]
    ensures forall i :: 0 <= i < |r| ==> r[i] != '<' && r[i] != '>' && r[i] != '"' && r[i] != '\''
  {
    if c == '&' then "&amp;"
    else if c == '<' then "&lt;"
    else if c == '>' then "&gt;"
    else if c == '"' then "&quot;"
    else if c == '\'' then "&#039;"
    else [c]
  }

  /** `escapeHtml(text)`: every match of the pattern replaced through the table. */
  function EscapeHtml(text: string): (r: string)
    ensures |r| >= |text|
    ensures forall i :: 0 <= i < |r| ==> r[i] != '<' && r[i] != '>' && r[i] != '"' && r[i] != '\''
  {
    if text == [] then [] else EscapeChar(text[0]) + EscapeHtml(text[1..])
  }

  /** Text without any of the five characters passes through unchanged. */
  lemma {:induction false} EscapeHtmlIdentity(text: string)
    requires forall i :: 0 <= i < |text| ==> !IsMarkupSpecial(text[i])
    ensures EscapeHtml(text) == text
  {
    if text != [] {
      EscapeHtmlIdentity(text[1..]);
      assert text == [text[0]] + text[1..];
    }
  }

  /** What a browser reads back from the escaped markup: the five character references decoded. */
  function DecodeReferences(html: string): string
  {
    if html == [] then []
    else if |html| >= 5 && html[..5] == "&amp;" then "&" + DecodeReferences(html[5..])
    else if |html| >= 4 && html[..4] == "&lt;" then "<" + DecodeReferences(html[4..])
    else if |html| >= 4 && html[..4] == "&gt;" then ">" + DecodeReferences(html[4..])
    else if |html| >= 6 && html[..6] == "&quot;" then "\"" + DecodeReferences(html[6..])
    else if |html| >= 6 && html[..6] == "&#039;" then "'" + DecodeReferences(html[6..])
    else [html[0]] + DecodeReferences(html[1..])
  }

  lemma DecodeEscapedChar(c: char, rest: string)
    ensures DecodeReferences(EscapeChar(c) + rest) == [c] + DecodeReferences(rest)
  {
    var e := EscapeChar(c);
    var h := e + rest;
    assert h[..|e|] == e && h[|e|..] == rest;
    if c == '&' {
      assert h[..5] == "&amp;";
    } else if c == '<' {
      assert |h| >= 5 ==> h[..5][1] == 'l';
      assert h[..4] == "&lt;";
    } else if c == '>' {
      assert |h| >= 5 ==> h[..5][1] == 'g';
      assert h[..4] == "&gt;";
    } else if c == '"' {
      assert h[..5][1] == 'q' && h[..4][1] == 'q';
      assert h[..6] == "&quot;";
    } else if c == '\'' {
      assert h[..5][1] == '#' && h[..4][1] == '#' && h[..6][1] == '#';
      assert h[..6] == "&#039;";
    } else {
      assert h[0] == c && h[1..] == rest;
      assert |h| >= 4 ==> h[..4][0] == c;
      assert |h| >= 5 ==> h[..5][0] == c;
      assert |h| >= 6 ==> h[..6][0] == c;
    }
  }

  /** Escaping loses nothing: decoding the character references gives back the original text. */
  lemma {:induction false} EscapeHtmlRoundTrip(text: string)
    ensures DecodeReferences(EscapeHtml(text)) == text
  {
    if text != [] {
      DecodeEscapedChar(text[0], EscapeHtml(text[1..]));
      EscapeHtmlRoundTrip(text[1..]);
      assert text == [text[0]] + text[1..];
    }
  }

  // ---------------------------------------------------------------------
  // Preview truncation (createNoteCard and the collapse branch of toggleContent)
  // ---------------------------------------------------------------------

  const PreviewLength := 200

  /** Content is cut to a preview, with an expand button, beyond 200 characters. */
  predicate ShowsExpandButton(content: string) {
    |content| > PreviewLength
  }

  /** The preview: the first 200 characters and "..." for long content, the content itself otherwise. */
  function Preview(content: string): (r: string)
    ensures !ShowsExpandButton(content) ==> r == content
    ensures ShowsExpandButton(content) ==>
              |r| == PreviewLength + 3 && r[..PreviewLength] == content[..PreviewLength] && r[PreviewLength..] == "..."
    ensures |r| <= PreviewLength + 3
  {
    if ShowsExpandButton(content) then content[..PreviewLength] + "..." else content
  }

  // ---------------------------------------------------------------------
  // renderNotes: the defensive filter
  // ---------------------------------------------------------------------

  /** A note as the client receives it in a list response; `_id` may be missing. */
  datatype ClientNote = ClientNote(id: Option<string>, title: string, content: string, createdAt: int, updatedAt: int)

  /** The filter's test: an `_id` that is present, non-empty and well-formed. */
  predicate Renderable(n: ClientNote) {
    n.id.Some? && n.id.value != "" && IsValidObjectId(n.id.value)
  }

  /** `notes.filter(...)` in `renderNotes`. */
  function RenderableNotes(notes: seq<ClientNote>): (r: seq<ClientNote>)
    ensures |r| <= |notes|
    ensures forall i :: 0 <= i < |r| ==> Renderable(r[i])
    ensures forall n :: n in r <==> n in notes && Renderable(n)
  {
    if notes == [] then []
    else if Renderable(notes[0]) then [notes[0]] + RenderableNotes(notes[1..])
    else RenderableNotes(notes[1..])
  }

  /** The filter works element by element, so it keeps the original order. */
  lemma {:induction false} RenderableNotesConcat(a: seq<ClientNote>, b: seq<ClientNote>)
    ensures RenderableNotes(a + b) == RenderableNotes(a) + RenderableNotes(b)
  {
    if a == [] {
      assert a + b == b;
    } else {
      assert (a + b)[0] == a[0] && (a + b)[1..] == a[1..] + b;
      RenderableNotesConcat(a[1..], b);
    }
  }

  /** A list of well-formed notes is rendered in full. */
  lemma {:induction false} RenderableNotesAllValid(notes: seq<ClientNote>)
    requires forall i :: 0 <= i < |notes| ==> Renderable(notes[i])
    ensures RenderableNotes(notes) == notes
  {
    if notes != [] {
      RenderableNotesAllValid(notes[1..]);
    }
  }

  // ---------------------------------------------------------------------
  // updatePagination
  // ---------------------------------------------------------------------

  /** The pagination bar: hidden, or shown with its two disabled flags. */
  datatype PaginationView = Hidden | Shown(prevDisabled: bool, nextDisabled: bool)

  function PaginationFor(currentPage: int, totalPages: int): (v: PaginationView)
    ensures v.Hidden? <==> totalPages <= 1
    ensures v.Shown? ==> (v.prevDisabled <==> currentPage <= 1) && (v.nextDisabled <==> currentPage >= totalPages)
  {
    if totalPages <= 1 then Hidden else Shown(currentPage <= 1, currentPage >= totalPages)
  }

  /** The page the "previous" button moves to: one back, unless already on the first page. */
  function PrevTarget(currentPage: int): (p: int)
    ensures p == currentPage || p == currentPage - 1
    ensures p < currentPage <==> currentPage > 1
  {
    if currentPage > 1 then currentPage - 1 else currentPage
  }

  /** The page the "next" button moves to: one on, unless already on the last page. */
  function NextTarget(currentPage: int, totalPages: int): (p: int)
    ensures p == currentPage || p == currentPage + 1
    ensures p > currentPage <==> currentPage < totalPages
  {
    if currentPage < totalPages then currentPage + 1 else currentPage
  }

  /** A shown button is disabled exactly when its click handler would leave the page as it is. */
  lemma ButtonsMatchHandlers(currentPage: int, totalPages: int)
    requires PaginationFor(currentPage, totalPages).Shown?
    ensures PaginationFor(currentPage, totalPages).prevDisabled <==> PrevTarget(currentPage) == currentPage
    ensures PaginationFor(currentPage, totalPages).nextDisabled <==> NextTarget(currentPage, totalPages) == currentPage
  {
  }

  // ---------------------------------------------------------------------
  // getTimeAgo
  // ---------------------------------------------------------------------

  const MsPerMinute := 1000 * 60
  const MsPerHour := 1000 * 60 * 60
  const MsPerDay := 1000 * 60 * 60 * 24

  function Abs(x: int): nat { if x < 0 then -x else x }

  /** The coarsest unit with a non-zero count of whole units in the difference. */
  datatype Elapsed = JustNow | Ago(amount: nat, unit: string)

  /** `getTimeAgo` on the millisecond difference between now and the date. */
  function ElapsedFor(diff: int): (e: Elapsed)
    ensures e.JustNow? <==> Abs(diff) < MsPerMinute
    ensures e.Ago? ==> e.amount >= 1
    ensures e.Ago? ==> e.unit == "day" || e.unit == "hour" || e.unit == "minute"
    ensures e.Ago? && e.unit == "day" ==> e.amount * MsPerDay <= Abs(diff) < (e.amount + 1) * MsPerDay
    ensures e.Ago? && e.unit == "hour" ==> Abs(diff) < MsPerDay && e.amount * MsPerHour <= Abs(diff) < (e.amount + 1) * MsPerHour
    ensures e.Ago? && e.unit == "minute" ==> Abs(diff) < MsPerHour && e.amount * MsPerMinute <= Abs(diff) < (e.amount + 1) * MsPerMinute
  {
    var d := Abs(diff);
    var days, hours, minutes := d / MsPerDay, d / MsPerHour, d / MsPerMinute;
    if days > 0 then Ago(days, "day")
    else if hours > 0 then Ago(hours, "hour")
    else if minutes > 0 then Ago(minutes, "minute")
    else JustNow
  }

  /** The difference's sign does not matter (`Math.abs`): a date in the future reads like one in the past. */
  lemma ElapsedSymmetric(diff: int)
    ensures ElapsedFor(-diff) == ElapsedFor(diff)
  {
  }

  /** The decimal numeral JavaScript writes for a non-negative integer in a template literal. */
  function Decimal(n: nat): (s: string)
    ensures |s| >= 1 && (forall i :: 0 <= i < |s| ==> '0' <= s[i] <= '9')
    ensures s[0] == '0' ==> n == 0
  {
    if n < 10 then [DigitChar(n)] else Decimal(n / 10) + [DigitChar(n % 10)]
  }

  function DigitChar(d: nat): (c: char)
    requires d < 10
    ensures '0' <= c <= '9'
  {
    ['0', '1', '2', '3', '4', '5', '6', '7', '8', '9'][d]
  }

  /** The value of a string of decimal digits, read from the left. */
  function DigitsValue(s: string): nat
    requires forall i :: 0 <= i < |s| ==> '0' <= s[i] <= '9'
  {
    if s == [] then 0 else 10 * DigitsValue(s[..|s| - 1]) + (s[|s| - 1] as int - '0' as int)
  }

  /** The numeral reads back as the number it was written for. */
  lemma {:induction false} DecimalRoundTrip(n: nat)
    ensures DigitsValue(Decimal(n)) == n
  {
    var s := Decimal(n);
    if n >= 10 {
      DecimalRoundTrip(n / 10);
      assert s[..|s| - 1] == Decimal(n / 10);
    }
  }

  predicate EndsWith(s: string, suffix: string) {
    |suffix| <= |s| && s[|s| - |suffix|..] == suffix
  }

  /** The label: "Just now", or the amount, the unit, an "s" for more than one, and "ago". */
  function TimeAgo(diff: int): (shown: string)
    ensures ElapsedFor(diff).JustNow? ==> shown == "Just now"
    ensures ElapsedFor(diff).Ago? ==>
              var numeral := Decimal(ElapsedFor(diff).amount);
              var unit := ElapsedFor(diff).unit;
              && |shown| == |numeral| + 1 + |unit| + (if ElapsedFor(diff).amount > 1 then 1 else 0) + 4
              && shown[..|numeral|] == numeral && shown[|numeral|] == ' '
              && shown[|numeral| + 1..|numeral| + 1 + |unit|] == unit
              && EndsWith(shown, " ago")
  {
    match ElapsedFor(diff)
    case JustNow => "Just now"
    case Ago(n, unit) => Decimal(n) + " " + unit + (if n > 1 then "s" else "") + " ago"
  }

  /** The unit is pluralised exactly when the count is more than one: the label ends in "s ago" just then. */
  lemma TimeAgoPlural(diff: int)
    ensures EndsWith(TimeAgo(diff), "s ago") <==> ElapsedFor(diff).Ago? && ElapsedFor(diff).amount > 1
  {
    var shown := TimeAgo(diff);
    match ElapsedFor(diff)
    case JustNow =>
      assert shown[|shown| - 5] == 't';
    case Ago(n, unit) =>
      var stem := Decimal(n) + " " + unit;
      if n > 1 {
        assert shown == stem + "s ago";
        assert shown[|shown| - 5..] == "s ago";
      } else {
        assert shown == stem + " ago";
        assert shown[|shown| - 5] == unit[|unit| - 1];
        assert unit == "day" || unit == "hour" || unit == "minute";
      }
  }

  /** The label reads "Just now" exactly when less than a minute separates the two times. */
  lemma TimeAgoJustNowIff(diff: int)
    ensures TimeAgo(diff) == "Just now" <==> Abs(diff) < MsPerMinute
  {
    var e := ElapsedFor(diff);
    if e.Ago? {
      var s := TimeAgo(diff);
      assert s[0] == Decimal(e.amount)[0];
      assert s[0] != 'J';
    }
  }
}
