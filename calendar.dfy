/**
 * The calendar wrapper `toICal` (index.php): the fixed VCALENDAR and VTIMEZONE
 * header, the event lines and END:VCALENDAR, with empty entries dropped, joined
 * with CRLF and ended with one more CRLF.
 */
module Calendar {
  import opened Php
  import opened Links
  import opened Fields
  import opened Events

  const Crlf := "\r\n"

  /** The seventeen lines before the events, as the source has them (the
      product identifier keeps its spelling "scheudle"). */
  const Header: seq<string> := [
    "BEGIN:VCALENDAR",
    "CALSCALE:GREGORIAN",
    "PRODID:-//kamiaka//garoon-scheudle-hoster v1.0//JP",
    "METHOD:PUBLISH",
    "VERSION:2.0",
    "X-WR-CALNAME:Garoon Schedule",
    "X-WR-CALDESC:Hosted Garoon Schedule",
    "X-WR-TIMEZONE:Asia/Tokyo",
    "BEGIN:VTIMEZONE",
    "TZID:Asia/Tokyo",
    "BEGIN:STANDARD",
    "DTSTART:19390101T000000",
    "TZOFFSETFROM:+0900",
    "TZOFFSETTO:+0900",
    "TZNAME:JST",
    "END:STANDARD",
    "END:VTIMEZONE"
  ]

  const Footer := "END:VCALENDAR"

  const BeginEvent := "BEGIN:VEVENT"
  const EndEvent := "END:VEVENT"

  /** `$json['events'] ?: []`: a missing or null event list is no events. */
  function EventsOf(events: Option<seq<Event>>): seq<Event> {
    match events
    case None => []
    case Some(list) => list
  }

  /** `array_filter(array_merge($header, toICalEvents(...), ['END:VCALENDAR']))`. */
  function CalendarLines(events: Option<seq<Event>>, site: Site): seq<string> {
    NonEmpty(Header + EventLines(EventsOf(events), site) + [Footer])
  }

  /** `toICal($json, $baseURL)`. */
  function ToICal(events: Option<seq<Event>>, site: Site): string {
    Join(Crlf, CalendarLines(events, site)) + Crlf
  }

  /** Each line followed by the terminator t. */
  function Terminated(t: string, xs: seq<string>): string
    decreases |xs|
  {
    if xs == [] then "" else Terminated(t, xs[..|xs| - 1]) + xs[|xs| - 1] + t
  }

  /** Joining with t and appending one more t ends every line with t. */
  lemma {:induction false} JoinTerminated(t: string, xs: seq<string>)
    requires xs != []
    ensures Join(t, xs) + t == Terminated(t, xs)
    decreases |xs|
  {
    if |xs| == 1 {
      assert xs[..0] == [];
    } else {
      JoinTerminated(t, xs[..|xs| - 1]);
    }
  }

  lemma {:induction false} TerminatedConcat(t: string, a: seq<string>, b: seq<string>)
    ensures Terminated(t, a + b) == Terminated(t, a) + Terminated(t, b)
    decreases |b|
  {
    if b == [] {
      assert a + b == a;
    } else {
      assert (a + b)[..|a + b| - 1] == a + b[..|b| - 1];
      TerminatedConcat(t, a, b[..|b| - 1]);
    }
  }

  /** No header line is empty, so the filter keeps them all. */
  lemma HeaderKept()
    ensures NonEmpty(Header) == Header
  {
    NonEmptyKeepsAll(Header);
  }

  /** The filter only ever removes event lines: the header and the footer stay. */
  lemma WrappedLines(el: seq<string>)
    ensures NonEmpty(Header + el + [Footer]) == Header + NonEmpty(el) + [Footer]
  {
    NonEmptyConcat(Header + el, [Footer]);
    NonEmptyConcat(Header, el);
    HeaderKept();
    NonEmptySingle(Footer);
  }

  /** The calendar's lines: the header, the event lines the filter keeps, the footer. */
  lemma CalendarLinesLayout(events: Option<seq<Event>>, site: Site)
    ensures CalendarLines(events, site) ==
      Header + NonEmpty(EventLines(EventsOf(events), site)) + [Footer]
  {
    WrappedLines(EventLines(EventsOf(events), site));
  }

  /** The text: every calendar line followed by CRLF, the header first and
      END:VCALENDAR last. */
  lemma ToICalLayout(events: Option<seq<Event>>, site: Site)
    ensures ToICal(events, site) == Terminated(Crlf, CalendarLines(events, site))
    ensures ToICal(events, site) ==
      Terminated(Crlf, Header) + Terminated(Crlf, NonEmpty(EventLines(EventsOf(events), site))) + Footer + Crlf
  {
    CalendarLinesLayout(events, site);
    TerminatedLayout(NonEmpty(EventLines(EventsOf(events), site)));
  }

  lemma TerminatedLayout(el: seq<string>)
    ensures Join(Crlf, Header + el + [Footer]) + Crlf ==
      Terminated(Crlf, Header + el + [Footer])
    ensures Terminated(Crlf, Header + el + [Footer]) ==
      Terminated(Crlf, Header) + Terminated(Crlf, el) + Footer + Crlf
  {
    JoinTerminated(Crlf, Header + el + [Footer]);
    TerminatedConcat(Crlf, Header + el, [Footer]);
    TerminatedConcat(Crlf, Header, el);
    assert [Footer][..0] == [];
  }

  /** Without events the calendar is the header and END:VCALENDAR. */
  lemma EmptyCalendar(site: Site)
    ensures ToICal(None, site) == Terminated(Crlf, Header) + "END:VCALENDAR\r\n"
    ensures ToICal(Some([]), site) == ToICal(None, site)
  {
    ToICalLayout(None, site);
    ToICalLayout(Some([]), site);
    assert NonEmpty([]) == [];
  }

  /** No line of the calendar is blank (or "0"). */
  lemma CalendarNoBlankLines(events: Option<seq<Event>>, site: Site)
    ensures forall k :: 0 <= k < |CalendarLines(events, site)| ==> !Empty(CalendarLines(events, site)[k])
  {
    NonEmptySpec(Header + EventLines(EventsOf(events), site) + [Footer]);
  }

  /** How many entries of xs equal x. */
  function Count(xs: seq<string>, x: string): nat
    decreases |xs|
  {
    if xs == [] then 0 else Count(xs[..|xs| - 1], x) + (if xs[|xs| - 1] == x then 1 else 0)
  }

  lemma {:induction false} CountConcat(a: seq<string>, b: seq<string>, x: string)
    ensures Count(a + b, x) == Count(a, x) + Count(b, x)
    decreases |b|
  {
    if b == [] {
      assert a + b == a;
    } else {
      assert (a + b)[..|a + b| - 1] == a + b[..|b| - 1];
      CountConcat(a, b[..|b| - 1], x);
    }
  }

  lemma {:induction false} CountNone(xs: seq<string>, x: string)
    requires forall k :: 0 <= k < |xs| ==> xs[k] != x
    ensures Count(xs, x) == 0
    decreases |xs|
  {
    if xs != [] {
      CountNone(xs[..|xs| - 1], x);
    }
  }

  lemma CountOne(s: string, x: string)
    ensures Count([s], x) == if s == x then 1 else 0
  {
    assert [s][..0] == [];
  }

  /** Dropping empty entries does not change how often a non-empty line occurs. */
  lemma {:induction false} CountNonEmpty(xs: seq<string>, x: string)
    requires !Empty(x)
    ensures Count(NonEmpty(xs), x) == Count(xs, x)
    decreases |xs|
  {
    if xs != [] {
      var init, last := xs[..|xs| - 1], xs[|xs| - 1];
      CountNonEmpty(init, x);
      if !Empty(last) {
        CountConcat(NonEmpty(init), [last], x);
        CountOne(last, x);
      }
    }
  }

  /** A string that does not begin with 'B' or 'E'; entries 1 to 11 of a block are such. */
  predicate Unmarked(s: string) {
    s == [] || (s[0] != 'B' && s[0] != 'E')
  }

  lemma PrefixUnmarked(p: string, s: string)
    requires |p| > 0 && p <= s && p[0] != 'B' && p[0] != 'E'
    ensures Unmarked(s)
  {
    assert s[0] == p[0];
  }

  lemma TimeFieldUnmarked(field: string, timeString: string, zoneString: string,
                          localTime: (string, string) -> string)
    requires |field| > 0 && field[0] != 'B' && field[0] != 'E'
    ensures Unmarked(TimeField(field, timeString, zoneString, localTime))
  {
    var r := TimeField(field, timeString, zoneString, localTime);
    TimeFieldForm(field, timeString, zoneString, localTime);
    assert r[0] == r[..|field|][0];
  }

  lemma BlockHeadUnmarked(ev: Event, site: Site)
    ensures forall k :: 1 <= k <= 6 ==> Unmarked(Block(ev, site)[k])
  {
    var b := Block(ev, site);
    BlockUid(ev, site);
    PrefixUnmarked("UID:", b[1]);
    BlockOrganizer(ev, site);
    if b[2] != "" {
      PrefixUnmarked("ORGANIZER;CN=", b[2]);
    }
    BlockStamps(ev, site);
    BlockStart(ev, site);
    TimeFieldUnmarked("DTSTART", ev.start.dateTime, ev.start.timeZone, site.localTime);
    BlockEnd(ev, site);
    TimeFieldUnmarked("DTEND", ev.end.dateTime, ev.end.timeZone, site.localTime);
  }

  lemma BlockTailUnmarked(ev: Event, site: Site)
    ensures forall k :: 7 <= k <= 11 ==> Unmarked(Block(ev, site)[k])
  {
    var b := Block(ev, site);
    BlockClass(ev, site);
    BlockSummary(ev, site);
    if b[8] != "" {
      PrefixUnmarked("SUMMARY:", b[8]);
    }
    BlockDescription(ev, site);
    PrefixUnmarked("DESCRIPTION:", b[9]);
    BlockLocation(ev, site);
    if b[10] != "" {
      PrefixUnmarked("LOCATION:", b[10]);
    }
    BlockUrl(ev, site);
    if b[11] != "" {
      PrefixUnmarked("URL:", b[11]);
    }
  }

  /** A block of thirteen entries that opens and closes with the markers and has
      no marker inside holds each marker once. */
  lemma FramedCounts(b: seq<string>)
    requires |b| == BlockSize && b[0] == BeginEvent && b[BlockSize - 1] == EndEvent
    requires forall k :: 1 <= k < BlockSize - 1 ==> Unmarked(b[k])
    ensures Count(b, BeginEvent) == 1 && Count(b, EndEvent) == 1
  {
    var inner := b[1..BlockSize - 1];
    assert b == [b[0]] + inner + [b[BlockSize - 1]];
    forall k | 0 <= k < |inner|
      ensures inner[k] != BeginEvent && inner[k] != EndEvent
    {
      assert Unmarked(b[k + 1]);
    }
    CountNone(inner, BeginEvent);
    CountNone(inner, EndEvent);
    CountConcat([b[0]] + inner, [b[BlockSize - 1]], BeginEvent);
    CountConcat([b[0]], inner, BeginEvent);
    CountConcat([b[0]] + inner, [b[BlockSize - 1]], EndEvent);
    CountConcat([b[0]], inner, EndEvent);
    CountOne(b[0], BeginEvent);
    CountOne(b[0], EndEvent);
    CountOne(b[BlockSize - 1], BeginEvent);
    CountOne(b[BlockSize - 1], EndEvent);
  }

  /** Every event block holds BEGIN:VEVENT once and END:VEVENT once. */
  lemma BlockMarkers(ev: Event, site: Site)
    ensures Count(Block(ev, site), BeginEvent) == 1 && Count(Block(ev, site), EndEvent) == 1
  {
    BlockFrame(ev, site);
    BlockHeadUnmarked(ev, site);
    BlockTailUnmarked(ev, site);
    FramedCounts(Block(ev, site));
  }

  lemma {:induction false} EventLinesMarkers(events: seq<Event>, site: Site)
    ensures Count(EventLines(events, site), BeginEvent) == |events|
    ensures Count(EventLines(events, site), EndEvent) == |events|
    decreases |events|
  {
    if events != [] {
      var init, last := events[..|events| - 1], events[|events| - 1];
      EventLinesMarkers(init, site);
      BlockMarkers(last, site);
      CountConcat(EventLines(init, site), Block(last, site), BeginEvent);
      CountConcat(EventLines(init, site), Block(last, site), EndEvent);
    }
  }

  /** The header and the footer hold no event marker. */
  lemma WrapperUnmarked()
    ensures Count(Header, BeginEvent) == 0 && Count(Header, EndEvent) == 0
    ensures Footer != BeginEvent && Footer != EndEvent
  {
    forall k | 0 <= k < |Header|
      ensures Header[k] != BeginEvent && Header[k] != EndEvent
    {
      assert |Header[k]| != 10 || Header[k][0] == 'T';
      assert |Header[k]| != 12 || Header[k][0] == 'E';
    }
    CountNone(Header, BeginEvent);
    CountNone(Header, EndEvent);
  }

  /** The calendar holds one VEVENT per event: as many BEGIN:VEVENT lines as
      events, and as many END:VEVENT lines. */
  lemma VEventCount(events: Option<seq<Event>>, site: Site)
    ensures Count(CalendarLines(events, site), BeginEvent) == |EventsOf(events)|
    ensures Count(CalendarLines(events, site), EndEvent) == |EventsOf(events)|
  {
    var el := EventLines(EventsOf(events), site);
    CalendarLinesLayout(events, site);
    EventLinesMarkers(EventsOf(events), site);
    WrapperCounts(el, BeginEvent);
    WrapperCounts(el, EndEvent);
  }

  lemma WrapperCounts(el: seq<string>, x: string)
    requires x == BeginEvent || x == EndEvent
    ensures Count(Header + NonEmpty(el) + [Footer], x) == Count(el, x)
  {
    WrapperUnmarked();
    CountConcat(Header + NonEmpty(el), [Footer], x);
    CountConcat(Header, NonEmpty(el), x);
    CountNonEmpty(el, x);
    CountOne(Footer, x);
  }
}
