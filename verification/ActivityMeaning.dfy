/** A distributor's activity told by its trace files and their lines alone. */
module ActivityMeaning {
  import opened Wrappers
  import opened Text
  import opened Records
  import opened Activity

  /** A line of the file is an event of the node. */
  predicate HasEvent(parse: Parser, f: TraceFile) {
    f.lines.Some? && exists i :: 0 <= i < |f.lines.value| && parse(f.lines.value[i]).Some?
  }

  /** The i-th line is the first of the file's latest events. */
  predicate IsLatestLine(parse: Parser, lines: seq<string>, i: nat, e: Event) {
    && i < |lines| && parse(lines[i]) == Some(e)
    && (forall k :: 0 <= k < |lines| && parse(lines[k]).Some? ==> parse(lines[k]).value.time <= e.time)
    && (forall k :: 0 <= k < i && parse(lines[k]).Some? ==> parse(lines[k]).value.time < e.time)
  }

  /** e is the first latest event of f. */
  predicate LatestIn(parse: Parser, f: TraceFile, e: Event) {
    f.lines.Some? && exists i: nat :: i < |f.lines.value| && IsLatestLine(parse, f.lines.value, i, e)
  }

  // ---- one file ---------------------------------------------------------------------------------------

  lemma {:induction false} EventMember(parse: Parser, lines: seq<string>, e: Event)
    ensures e in EventsIn(parse, lines) <==> exists k :: 0 <= k < |lines| && parse(lines[k]) == Some(e)
  {
    if lines != [] {
      EventMember(parse, lines[1..], e);
      assert forall k :: 1 <= k < |lines| ==> lines[k] == lines[1..][k - 1];
      if k :| 0 <= k < |lines[1..]| && parse(lines[1..][k]) == Some(e) {
        assert parse(lines[k + 1]) == Some(e);
      }
    }
  }

  lemma HasEventIff(parse: Parser, f: TraceFile)
    ensures HasEvent(parse, f) <==> FileEvents(parse, f) != []
  {
    match f.lines
    case None =>
    case Some(lines) =>
      if i :| 0 <= i < |lines| && parse(lines[i]).Some? {
        EventMember(parse, lines, parse(lines[i]).value);
      }
      if EventsIn(parse, lines) != [] {
        EventMember(parse, lines, EventsIn(parse, lines)[0]);
      }
  }

  lemma NoneNewerLine(parse: Parser, lines: seq<string>, e: Event)
    requires NoneNewer(e, EventsIn(parse, lines))
    ensures forall k :: 0 <= k < |lines| && parse(lines[k]).Some? ==> parse(lines[k]).value.time <= e.time
  {
    forall k | 0 <= k < |lines| && parse(lines[k]).Some? ensures parse(lines[k]).value.time <= e.time {
      EventMember(parse, lines, parse(lines[k]).value);
      var j :| 0 <= j < |EventsIn(parse, lines)| && EventsIn(parse, lines)[j] == parse(lines[k]).value;
    }
  }

  lemma LaterLine(parse: Parser, lines: seq<string>, i: nat, e: Event)
    requires lines != [] && IsLatestLine(parse, lines[1..], i, e)
    requires parse(lines[0]).Some? ==> parse(lines[0]).value.time < e.time
    ensures IsLatestLine(parse, lines, i + 1, e)
  {
    assert forall k :: 1 <= k < |lines| ==> lines[k] == lines[1..][k - 1];
  }

  lemma OlderTail(first: Event, later: seq<Event>, e: Event)
    ensures AllOlder([first] + later, e) ==> AllOlder(later, e) && first.time < e.time
    ensures NoneNewer(e, [first] + later) ==> NoneNewer(e, later)
  {
    assert ([first] + later)[0] == first;
    assert forall j :: 0 <= j < |later| ==> later[j] == ([first] + later)[j + 1];
  }

  lemma FirstLatestTail(e: Event, first: Event, later: seq<Event>)
    requires FirstLatest(e, [first] + later) && first != e
    ensures first.time < e.time && FirstLatest(e, later)
  {
    var events := [first] + later;
    var i :| 0 <= i < |events| && events[i] == e && AllOlder(events[..i], e);
    assert i > 0 && events[..i] == [first] + later[..i - 1];
    OlderTail(first, later[..i - 1], e);
    OlderTail(first, later, e);
    assert later[i - 1] == e;
  }

  lemma {:induction false} LatestLine(parse: Parser, lines: seq<string>, e: Event) returns (i: nat)
    requires FirstLatest(e, EventsIn(parse, lines))
    ensures IsLatestLine(parse, lines, i, e)
  {
    NoneNewerLine(parse, lines, e);
    i := 0;
    if parse(lines[0]) != Some(e) {
      var later := EventsIn(parse, lines[1..]);
      if parse(lines[0]).Some? {
        FirstLatestTail(e, parse(lines[0]).value, later);
      } else {
        assert EventsIn(parse, lines) == later;
      }
      var k := LatestLine(parse, lines[1..], e);
      LaterLine(parse, lines, k, e);
      i := k + 1;
    }
  }

  // ---- one day ------------------------------------------------------------------------------------------

  /** f is the file of a day whose event counts: it has one, and no file of the day with one has a
      larger path. */
  predicate Leads(parse: Parser, files: seq<TraceFile>, f: TraceFile) {
    f in files && HasEvent(parse, f) && forall g :: g in files && HasEvent(parse, g) ==> !Less(f.path, g.path)
  }

  lemma SameFiles(files: seq<TraceFile>, f: TraceFile)
    ensures f in NewestFirst(files) <==> f in files
  {
    NewestFirstSorts(files);
    assert multiset(NewestFirst(files))[f] == multiset(files)[f];
  }

  lemma DayMeaning(parse: Parser, files: seq<TraceFile>) returns (f: TraceFile)
    ensures var found := Search(parse, NewestFirst(files));
            && (found.None? <==> forall g :: g in files ==> !HasEvent(parse, g))
            && (found.Some? ==> Leads(parse, files, f) && LatestIn(parse, f, found.value))
  {
    var sorted := NewestFirst(files);
    var i := SearchMeaning(parse, sorted);
    forall g ensures g in sorted <==> g in files {
      SameFiles(files, g);
    }
    forall g ensures HasEvent(parse, g) <==> FileEvents(parse, g) != [] {
      HasEventIff(parse, g);
    }
    f := TraceFile("", None);
    if i == |sorted| {
      forall g | g in files ensures !HasEvent(parse, g) {
        var j :| 0 <= j < |sorted| && sorted[j] == g;
      }
    } else {
      f := sorted[i];
      var e := Search(parse, sorted).value;
      var k := LatestLine(parse, f.lines.value, e);
      NewestFirstSorts(files);
      forall g | g in files && HasEvent(parse, g) ensures !Less(f.path, g.path) {
        var j :| 0 <= j < |sorted| && sorted[j] == g;
        if j == i {
          LessIrreflexive(f.path);
        }
      }
      assert sorted[i] in sorted;
    }
  }

  // ---- all days --------------------------------------------------------------------------------------------

  predicate QuietDay(parse: Parser, files: seq<TraceFile>) {
    forall g :: g in files ==> !HasEvent(parse, g)
  }

  lemma {:induction false} WhichDay(parse: Parser, matches: nat -> seq<TraceFile>, from: nat, lookback: nat)
    returns (d: nat)
    requires from <= lookback
    ensures from <= d <= lookback
    ensures forall c: nat :: from <= c < d ==> Search(parse, NewestFirst(matches(c))) == None
    ensures d == lookback ==> Search(parse, SearchOrder(matches, from, lookback)) == None
    ensures d < lookback ==>
              && Search(parse, NewestFirst(matches(d))).Some?
              && Search(parse, SearchOrder(matches, from, lookback)) == Search(parse, NewestFirst(matches(d)))
    decreases lookback - from
  {
    d := from;
    if from < lookback {
      SearchConcat(parse, NewestFirst(matches(from)), SearchOrder(matches, from + 1, lookback));
      if Search(parse, NewestFirst(matches(from))).None? {
        d := WhichDay(parse, matches, from + 1, lookback);
      }
    }
  }

  /** e is the event to report: the first latest one of the leading file of the nearest day on which
      any file has an event. */
  predicate ToReport(
      parse: Parser, matches: nat -> seq<TraceFile>, lookback: int, d: nat, f: TraceFile, e: Event)
  {
    && d < lookback && (forall c: nat :: c < d ==> QuietDay(parse, matches(c)))
    && Leads(parse, matches(d), f) && LatestIn(parse, f, e)
  }

  predicate AnyEvent(parse: Parser, matches: nat -> seq<TraceFile>, lookback: int) {
    exists d: nat :: d < lookback && !QuietDay(parse, matches(d))
  }

  /** What a distributor reports. It succeeds just when traces are configured and some file of the
      days looked back on has an event; then it names the event to report, and its age. */
  lemma DistributorMeaning(
      parse: Parser, matches: nat -> seq<TraceFile>, tracelogDir: string,
      base: string, stream: string, node: string, lookback: int, minDelay: int, now: int)
    returns (d: nat, f: TraceFile, e: Event)
    ensures var a :=
              DistributorActivity(parse, matches, tracelogDir, base, stream, node, lookback, minDelay, now);
            && (a.success <==> tracelogDir != "" && AnyEvent(parse, matches, lookback))
            && (a.success ==>
                  && ToReport(parse, matches, lookback, d, f, e)
                  && a == NodeActivity(base, stream, node, "distributor", e.time, DelayOf(now, e.time, minDelay), e.file, true))
            && (!a.success ==> a == NodeActivity(base, stream, node, "distributor", 0, 0, "-", false))
  {
    d, f, e := 0, TraceFile("", None), Event(0, "");
    if tracelogDir != "" && lookback > 0 {
      forall c: nat ensures Search(parse, NewestFirst(matches(c))).None? <==> QuietDay(parse, matches(c)) {
        var g := DayMeaning(parse, matches(c));
      }
      d := WhichDay(parse, matches, 0, lookback);
      if d < lookback {
        f := DayMeaning(parse, matches(d));
        e := Search(parse, NewestFirst(matches(d))).value;
      }
    }
  }
}
