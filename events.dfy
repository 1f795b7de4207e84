/**
 * Event rendering (`toICalEvents`, index.php): one VEVENT block of thirteen
 * entries per event, in input order. An entry is "" where `field` omitted the
 * property; the calendar wrapper drops those.
 */
module Events {
  import opened Utf8
  import opened Php
  import opened Fields
  import opened Links

  /** The line between the notes and the attributions in a description. */
  const Separator := "- - -"

  /** At most this many attendee names are listed in the description. */
  const MaxAttendees := 20

  /** Entries in one VEVENT block. */
  const BlockSize := 13

  datatype Person = Person(name: string, code: string)

  datatype EventTime = EventTime(dateTime: string, timeZone: string)

  /** One decoded event record; attendees and facilities are their `name` fields. */
  datatype Event = Event(
    id: string,
    subject: string,
    eventMenu: string,
    notes: string,
    creator: Person,
    updater: Person,
    createdAt: string,
    updatedAt: string,
    start: EventTime,
    end: EventTime,
    attendees: seq<string>,
    facilities: seq<string>)

  /** What the renderer takes from outside the event list: the `url` query
      parameter, `$_SERVER['SERVER_NAME']`, and the `DateTime` conversion of a
      timestamp into a zone as `Ymd\THis` text. */
  datatype Site = Site(baseURL: string, serverName: string, localTime: (string, string) -> string)

  /** The SUMMARY value: the event menu and ": " before the subject when the menu is set. */
  function Summary(ev: Event): string {
    (if Empty(ev.eventMenu) then "" else ev.eventMenu + ": ") + ev.subject
  }

  /** The first twenty attendee names after "Attendees: ", joined with ", ". */
  function AttendeesListed(names: seq<string>): string {
    var n := |names|;
    "Attendees: " + Join(", ", names[..if n < MaxAttendees then n else MaxAttendees])
  }

  /** The note appended when names were left out. */
  function OverflowNote(count: string): string {
    ", ...more " + count + " attendees"
  }

  /** The attendee line as the source builds it: the overflow count is the
      comparison `count > 20` itself, which PHP turns into "1". */
  function AttendeesLineAsWritten(names: seq<string>): string {
    var n := |names|;
    AttendeesListed(names) + (if n > MaxAttendees then OverflowNote(BoolToString(n > MaxAttendees)) else "")
  }

  /** The attendee line with the overflow count meant: the number of names left out. */
  function AttendeesLine(names: seq<string>): string {
    var n := |names|;
    AttendeesListed(names) + (if n > MaxAttendees then OverflowNote(NatToString(n - MaxAttendees)) else "")
  }

  function CreatedLine(ev: Event): string {
    "Created by: " + ev.creator.name + " (" + ev.createdAt + ")"
  }

  function UpdatedLine(ev: Event): string {
    "Updated by: " + ev.updater.name + " (" + ev.updatedAt + ")"
  }

  /** The DESCRIPTION value as the source builds it: the non-empty ones of the
      trimmed notes, the separator, the two attribution lines and the attendee
      line (with its overflow count of "1"), joined with LF. */
  function Description(ev: Event): string {
    Join("\n", NonEmpty([Trim(ev.notes), Separator, CreatedLine(ev), UpdatedLine(ev), AttendeesLineAsWritten(ev.attendees)]))
  }

  /** The DESCRIPTION value with the overflow count meant. */
  function DescriptionIntended(ev: Event): string {
    Join("\n", NonEmpty([Trim(ev.notes), Separator, CreatedLine(ev), UpdatedLine(ev), AttendeesLine(ev.attendees)]))
  }

  /** The LOCATION value: the facility names joined with ", ". */
  function Location(ev: Event): string {
    if |ev.facilities| == 0 then "" else Join(", ", ev.facilities)
  }

  /** One element of the array `toICalEvents` appends: literal text, or a
      property that goes through `field`. */
  datatype Entry = Text(text: string) | Property(name: string, value: string)

  function Render(e: Entry): string {
    match e
    case Text(t) => t
    case Property(name, value) => Field(name, value)
  }

  /** Each entry rendered, in order. */
  function RenderAll(es: seq<Entry>): (r: seq<string>)
    ensures |r| == |es|
    decreases |es|
  {
    if es == [] then [] else RenderAll(es[..|es| - 1]) + [Render(es[|es| - 1])]
  }

  lemma {:induction false} RenderAllIndex(es: seq<Entry>, k: nat)
    requires k < |es|
    ensures RenderAll(es)[k] == Render(es[k])
    decreases |es|
  {
    if k < |es| - 1 {
      RenderAllIndex(es[..|es| - 1], k);
    }
  }

  /** The array literal of `toICalEvents` for one event. */
  function Entries(ev: Event, site: Site): seq<Entry> {
    [ Text("BEGIN:VEVENT"),
      Property("UID", Uid(ev.id, site.baseURL, site.serverName) + "/" + ev.start.dateTime),
      Property("ORGANIZER;CN=" + ev.creator.name, ev.creator.code),
      Text(TimeField("CREATED", ev.createdAt, "UTC", site.localTime)),
      Text(TimeField("LAST-MODIFIED", ev.updatedAt, "UTC", site.localTime)),
      Text(TimeField("DTSTART", ev.start.dateTime, ev.start.timeZone, site.localTime)),
      Text(TimeField("DTEND", ev.end.dateTime, ev.end.timeZone, site.localTime)),
      Property("CLASS", "PRIVATE"),
      Property("SUMMARY", Summary(ev)),
      Property("DESCRIPTION", Description(ev)),
      Property("LOCATION", Location(ev)),
      Property("URL", EventUrl(ev.id, site.baseURL)),
      Text("END:VEVENT") ]
  }

  /** The entries `toICalEvents` appends for one event. */
  function Block(ev: Event, site: Site): (b: seq<string>)
    ensures |b| == BlockSize
  {
    RenderAll(Entries(ev, site))
  }

  /** The blocks of the events, one after another. */
  function EventLines(events: seq<Event>, site: Site): seq<string>
    decreases |events|
  {
    if events == [] then []
    else EventLines(events[..|events| - 1], site) + Block(events[|events| - 1], site)
  }

  /** `toICalEvents($events, $baseURL)`: the loop that grows `$data` with `array_merge`. */
  method ToICalEvents(events: seq<Event>, site: Site) returns (data: seq<string>)
    ensures data == EventLines(events, site)
  {
    data := [];
    for i := 0 to |events|
      invariant data == EventLines(events[..i], site)
    {
      data := data + Block(events[i], site);
      assert events[..i + 1][..i] == events[..i];
    }
    assert events[..|events|] == events;
  }

  /** xs is the blocks bs, each BlockSize entries long, one after another. */
  predicate Tiled(xs: seq<string>, bs: seq<seq<string>>) {
    |xs| == BlockSize * |bs|
    && forall k :: 0 <= k < |bs| ==> xs[BlockSize * k .. BlockSize * k + BlockSize] == bs[k]
  }

  lemma TiledAppend(xs: seq<string>, bs: seq<seq<string>>, b: seq<string>)
    requires Tiled(xs, bs) && |b| == BlockSize
    ensures Tiled(xs + b, bs + [b])
  {
    var all := xs + b;
    var cs := bs + [b];
    forall k | 0 <= k < |cs|
      ensures all[BlockSize * k .. BlockSize * k + BlockSize] == cs[k]
    {
      var i := BlockSize * k;
      if k < |bs| {
        assert i + BlockSize <= |xs| by {
          assert BlockSize * (k + 1) <= BlockSize * |bs|;
        }
        assert all[i .. i + BlockSize] == xs[i .. i + BlockSize];
      } else {
        assert all[i .. i + BlockSize] == b;
      }
    }
  }

  /** The block of each event. */
  function Blocks(events: seq<Event>, site: Site): (bs: seq<seq<string>>)
    ensures |bs| == |events|
  {
    seq(|events|, k requires 0 <= k < |events| => Block(events[k], site))
  }

  lemma {:induction false} EventLinesTiled(events: seq<Event>, site: Site)
    ensures Tiled(EventLines(events, site), Blocks(events, site))
    decreases |events|
  {
    if events != [] {
      var init := events[..|events| - 1];
      EventLinesTiled(init, site);
      var last := Block(events[|events| - 1], site);
      assert |last| == BlockSize;
      var bs, cs := Blocks(events, site), Blocks(init, site) + [last];
      forall k | 0 <= k < |events|
        ensures bs[k] == cs[k]
      {
        if k < |init| {
          assert init[k] == events[k];
          assert cs[k] == Blocks(init, site)[k] == Block(init[k], site);
        } else {
          assert k == |events| - 1;
          assert cs[k] == last;
        }
        assert bs[k] == Block(events[k], site);
      }
      assert bs == cs;
      TiledAppend(EventLines(init, site), Blocks(init, site), last);
    }
  }

  /** Block structure: one block per event, in input order. */
  lemma EventLinesBlocks(events: seq<Event>, site: Site)
    ensures |EventLines(events, site)| == BlockSize * |events|
    ensures forall k :: 0 <= k < |events| ==>
      EventLines(events, site)[BlockSize * k .. BlockSize * k + BlockSize] == Block(events[k], site)
  {
    EventLinesTiled(events, site);
    var bs := Blocks(events, site);
    assert forall k :: 0 <= k < |events| ==> bs[k] == Block(events[k], site);
  }

  /** The literal entries that open and close a block. */
  lemma BlockFrame(ev: Event, site: Site)
    ensures Block(ev, site)[0] == "BEGIN:VEVENT" && Block(ev, site)[BlockSize - 1] == "END:VEVENT"
  {
    RenderAllIndex(Entries(ev, site), 0);
    RenderAllIndex(Entries(ev, site), 12);
  }

  /** CREATED and LAST-MODIFIED are always in the UTC form. */
  lemma BlockStamps(ev: Event, site: Site)
    ensures Block(ev, site)[3] == "CREATED:" + site.localTime(ev.createdAt, "UTC") + "Z"
    ensures Block(ev, site)[4] == "LAST-MODIFIED:" + site.localTime(ev.updatedAt, "UTC") + "Z"
  {
    RenderAllIndex(Entries(ev, site), 3);
    RenderAllIndex(Entries(ev, site), 4);
  }

  /** DTSTART is in the event's own zone, the default zone when it has none. */
  lemma BlockStart(ev: Event, site: Site)
    ensures Block(ev, site)[5] == TimeField("DTSTART", ev.start.dateTime, ev.start.timeZone, site.localTime)
  {
    RenderAllIndex(Entries(ev, site), 5);
  }

  /** DTEND likewise, from the end time and its zone. */
  lemma BlockEnd(ev: Event, site: Site)
    ensures Block(ev, site)[6] == TimeField("DTEND", ev.end.dateTime, ev.end.timeZone, site.localTime)
  {
    RenderAllIndex(Entries(ev, site), 6);
  }

  /** The CLASS property is fixed. */
  lemma BlockClass(ev: Event, site: Site)
    ensures Block(ev, site)[7] == "CLASS:PRIVATE"
  {
    RenderAllIndex(Entries(ev, site), 7);
    ClassPrivate();
  }

  /** The UID property is always present. */
  lemma BlockUid(ev: Event, site: Site)
    ensures "UID:" <= Block(ev, site)[1]
  {
    UidForm(ev.id, site.baseURL, site.serverName);
    UidPresent(Entries(ev, site), Uid(ev.id, site.baseURL, site.serverName) + "/" + ev.start.dateTime);
  }

  lemma UidPresent(es: seq<Entry>, v: string)
    requires |es| > 1 && es[1] == Property("UID", v) && |v| > 1
    ensures "UID:" <= RenderAll(es)[1]
  {
    RenderAllIndex(es, 1);
    FieldPrefix("UID", v, "UID:");
  }

  /** The DESCRIPTION property is always present: it holds at least the separator. */
  lemma BlockDescription(ev: Event, site: Site)
    ensures "DESCRIPTION:" <= Block(ev, site)[9]
  {
    RenderAllIndex(Entries(ev, site), 9);
    DescriptionLayout(ev);
    DescriptionPresent(Description(ev));
  }

  lemma DescriptionPresent(d: string)
    requires |d| > 1
    ensures "DESCRIPTION:" <= Field("DESCRIPTION", d)
  {
    FieldPrefix("DESCRIPTION", d, "DESCRIPTION:");
  }

  /** ORGANIZER is omitted exactly when the creator has no code. */
  lemma BlockOrganizer(ev: Event, site: Site)
    ensures Block(ev, site)[2] == "" <==> Empty(ev.creator.code)
    ensures !Empty(ev.creator.code) ==> "ORGANIZER;CN=" <= Block(ev, site)[2]
  {
    RenderAllIndex(Entries(ev, site), 2);
    FieldOmitted("ORGANIZER;CN=" + ev.creator.name, ev.creator.code);
    if !Empty(ev.creator.code) {
      OrganizerPresent(ev.creator.name, ev.creator.code);
    }
  }

  lemma OrganizerPresent(name: string, code: string)
    requires !Empty(code)
    ensures "ORGANIZER;CN=" <= Field("ORGANIZER;CN=" + name, code)
  {
    var n := "ORGANIZER;CN=" + name;
    assert "ORGANIZER;CN=" <= n + ":";
    FieldPrefix(n, code, "ORGANIZER;CN=");
  }

  /** SUMMARY is omitted exactly when both the menu and the subject are empty. */
  lemma BlockSummary(ev: Event, site: Site)
    ensures Block(ev, site)[8] == "" <==> Empty(ev.eventMenu) && Empty(ev.subject)
    ensures Block(ev, site)[8] != "" ==> "SUMMARY:" <= Block(ev, site)[8]
  {
    RenderAllIndex(Entries(ev, site), 8);
    FieldOmitted("SUMMARY", Summary(ev));
    SummaryEmpty(ev);
    if !Empty(Summary(ev)) {
      FieldPrefix("SUMMARY", Summary(ev), "SUMMARY:");
    }
  }

  lemma SummaryEmpty(ev: Event)
    ensures Empty(Summary(ev)) <==> Empty(ev.eventMenu) && Empty(ev.subject)
  {
    if !Empty(ev.eventMenu) {
      assert |Summary(ev)| >= 3;
    }
  }

  /** LOCATION is omitted exactly when there is no facility, or one with an empty name. */
  lemma BlockLocation(ev: Event, site: Site)
    ensures Block(ev, site)[10] == "" <==>
      |ev.facilities| == 0 || (|ev.facilities| == 1 && Empty(ev.facilities[0]))
    ensures Block(ev, site)[10] != "" ==> "LOCATION:" <= Block(ev, site)[10]
  {
    RenderAllIndex(Entries(ev, site), 10);
    FieldOmitted("LOCATION", Location(ev));
    LocationEmpty(ev.facilities);
    if !Empty(Location(ev)) {
      FieldPrefix("LOCATION", Location(ev), "LOCATION:");
    }
  }

  lemma LocationEmpty(f: seq<string>)
    ensures Empty(if |f| == 0 then "" else Join(", ", f)) <==> |f| == 0 || (|f| == 1 && Empty(f[0]))
  {
    if |f| >= 2 {
      assert Join(", ", f) == Join(", ", f[..|f| - 1]) + ", " + f[|f| - 1];
    }
  }

  /** URL is omitted exactly when no base URL is configured. */
  lemma BlockUrl(ev: Event, site: Site)
    ensures Block(ev, site)[11] == "" <==> Empty(site.baseURL)
    ensures Block(ev, site)[11] != "" ==> "URL:" <= Block(ev, site)[11]
  {
    RenderAllIndex(Entries(ev, site), 11);
    var url := EventUrl(ev.id, site.baseURL);
    FieldOmitted("URL", url);
    EventUrlForm(ev.id, site.baseURL);
    if !Empty(url) {
      FieldPrefix("URL", url, "URL:");
    }
  }

  /** The description: the trimmed notes and a LF unless they are empty, then the
      separator, the attribution lines and the attendee line, one per line. */
  lemma DescriptionLayout(ev: Event)
    ensures Description(ev) ==
      (if Empty(Trim(ev.notes)) then "" else Trim(ev.notes) + "\n")
      + Separator + "\n" + CreatedLine(ev) + "\n" + UpdatedLine(ev) + "\n" + AttendeesLineAsWritten(ev.attendees)
  {
    var c, u, a := CreatedLine(ev), UpdatedLine(ev), AttendeesLineAsWritten(ev.attendees);
    assert |c| > 1 && |u| > 1 && |a| > 1;
    JoinedLayout(Trim(ev.notes), Separator, c, u, a);
  }

  /** The intended description has the same layout, with the corrected attendee line. */
  lemma DescriptionIntendedLayout(ev: Event)
    ensures DescriptionIntended(ev) ==
      (if Empty(Trim(ev.notes)) then "" else Trim(ev.notes) + "\n")
      + Separator + "\n" + CreatedLine(ev) + "\n" + UpdatedLine(ev) + "\n" + AttendeesLine(ev.attendees)
  {
    var c, u, a := CreatedLine(ev), UpdatedLine(ev), AttendeesLine(ev.attendees);
    assert |c| > 1 && |u| > 1 && |a| > 1;
    JoinedLayout(Trim(ev.notes), Separator, c, u, a);
  }

  /** The description as written and the intended one differ exactly when more
      than 21 attendees are listed: only the attendee line differs. */
  lemma DescriptionQuirk(ev: Event)
    ensures Description(ev) == DescriptionIntended(ev) <==> |ev.attendees| <= MaxAttendees + 1
  {
    DescriptionLayout(ev);
    DescriptionIntendedLayout(ev);
    AttendeesCountQuirk(ev.attendees);
    var p := (if Empty(Trim(ev.notes)) then "" else Trim(ev.notes) + "\n")
      + Separator + "\n" + CreatedLine(ev) + "\n" + UpdatedLine(ev) + "\n";
    SuffixCancel(p, AttendeesLineAsWritten(ev.attendees), AttendeesLine(ev.attendees));
  }

  /** Strings with the same start are equal exactly when their ends are. */
  lemma SuffixCancel(p: string, x: string, y: string)
    ensures p + x == p + y <==> x == y
  {
    if p + x == p + y {
      assert x == (p + x)[|p|..];
      assert y == (p + y)[|p|..];
    }
  }

  /** Five parts joined with LF after the filter, when only the first may be empty. */
  lemma JoinedLayout(n: string, s: string, c: string, u: string, a: string)
    requires !Empty(s) && !Empty(c) && !Empty(u) && !Empty(a)
    ensures Join("\n", NonEmpty([n, s, c, u, a])) ==
      (if Empty(n) then "" else n + "\n") + s + "\n" + c + "\n" + u + "\n" + a
  {
    var tail := [s, c, u, a];
    assert [n, s, c, u, a] == [n] + tail;
    FilteredParts(n, tail);
    JoinedTail(s, c, u, a);
    if !Empty(n) {
      JoinedWithFirst(n, tail);
    }
  }

  lemma JoinedWithFirst(n: string, tail: seq<string>)
    requires tail != []
    ensures Join("\n", [n] + tail) == n + "\n" + Join("\n", tail)
  {
    JoinConcat("\n", [n], tail);
  }

  lemma FilteredParts(n: string, tail: seq<string>)
    requires forall k :: 0 <= k < |tail| ==> !Empty(tail[k])
    ensures NonEmpty([n] + tail) == (if Empty(n) then tail else [n] + tail)
  {
    NonEmptyConcat([n], tail);
    NonEmptyKeepsAll(tail);
    NonEmptySingle(n);
  }

  lemma JoinedTail(s: string, c: string, u: string, a: string)
    ensures Join("\n", [s, c, u, a]) == s + "\n" + c + "\n" + u + "\n" + a
  {
    JoinAppend("\n", [s], c);
    assert [s] + [c] == [s, c];
    JoinAppend("\n", [s, c], u);
    assert [s, c] + [u] == [s, c, u];
    JoinAppend("\n", [s, c, u], a);
    assert [s, c, u] + [a] == [s, c, u, a];
  }

  /** Up to twenty attendees are all listed, with no overflow note. */
  lemma AttendeesAll(names: seq<string>)
    requires |names| <= MaxAttendees
    ensures AttendeesLine(names) == "Attendees: " + Join(", ", names)
    ensures AttendeesLineAsWritten(names) == AttendeesLine(names)
  {
    assert names[..|names|] == names;
    assert AttendeesLine(names) == AttendeesListed(names) + "";
  }

  /** With more than twenty, the first twenty are listed and the note gives
      how many were left out. */
  lemma AttendeesTruncated(names: seq<string>)
    requires |names| > MaxAttendees
    ensures AttendeesLine(names) == "Attendees: " + Join(", ", names[..MaxAttendees])
      + OverflowNote(NatToString(|names| - MaxAttendees))
  {
  }

  /** The line as written agrees with the intended one only up to 21 attendees:
      with more it always reports "1" more attendee. */
  lemma AttendeesCountQuirk(names: seq<string>)
    ensures AttendeesLineAsWritten(names) == AttendeesLine(names) <==> |names| <= MaxAttendees + 1
    ensures |names| > MaxAttendees ==>
      AttendeesLineAsWritten(names) == "Attendees: " + Join(", ", names[..MaxAttendees]) + ", ...more 1 attendees"
  {
    var n := |names|;
    if n > MaxAttendees {
      OverflowCount(AttendeesListed(names), n - MaxAttendees);
    }
  }

  /** Writing "1" in place of the count is right only for a count of one. */
  lemma OverflowCount(listed: string, m: nat)
    requires m >= 1
    ensures listed + OverflowNote("1") == listed + OverflowNote(NatToString(m)) <==> m == 1
  {
    if m > 1 {
      NatToStringRoundTrip(m);
      assert ParseDecimal("1") == 1;
      var p := listed + ", ...more ";
      assert listed + OverflowNote("1") == p + "1" + " attendees";
      assert listed + OverflowNote(NatToString(m)) == p + NatToString(m) + " attendees";
      if listed + OverflowNote("1") == listed + OverflowNote(NatToString(m)) {
        MiddleCancel(listed + ", ...more ", "1", NatToString(m), " attendees");
      }
    } else {
      assert NatToString(1) == "1";
    }
  }

  /** Equal strings with the same ends have the same middle. */
  lemma MiddleCancel(p: string, x: string, y: string, t: string)
    requires p + x + t == p + y + t
    ensures x == y
  {
    assert |x| == |y|;
    assert x == (p + x + t)[|p|..|p| + |x|];
    assert y == (p + y + t)[|p|..|p| + |y|];
  }
}
