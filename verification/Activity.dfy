/** Distributor activity (activity.go): the early-exit search of trace files and the delay. */
module Activity {
  import opened Wrappers
  import opened Text
  import opened Records
  import opened Sorting

  // ---- one trace file ------------------------------------------------------------------------

  /** A distribution event of the node looked for. */
  datatype Event = Event(time: int, file: string)

  /** A trace file by path; lines is None when it cannot be opened. */
  datatype TraceFile = TraceFile(path: string, lines: Option<seq<string>>)

  /** parseDistributorLine for one node: the event of a line, if it is one. */
  type Parser = string -> Option<Event>

  function EventsIn(parse: Parser, lines: seq<string>): seq<Event> {
    if lines == [] then []
    else
      var e := parse(lines[0]);
      (if e.Some? then [e.value] else []) + EventsIn(parse, lines[1..])
  }

  function FileEvents(parse: Parser, f: TraceFile): seq<Event> {
    if f.lines.None? then [] else EventsIn(parse, f.lines.value)
  }

  /** The latest event, earlier lines winning ties; held is what was found before. */
  function Latest(held: Option<Event>, events: seq<Event>): Option<Event>
    decreases |events|
  {
    if events == [] then held
    else
      var e := events[0];
      Latest(if held.None? || e.time > held.value.time then Some(e) else held, events[1..])
  }

  // ---- the order of search ----------------------------------------------------------------------

  /** sort.Sort(sort.Reverse(sort.StringSlice(matches))): the larger path first. */
  function LargerPath(): Order<TraceFile> {
    (f: TraceFile, g: TraceFile) => Less(g.path, f.path)
  }

  function NewestFirst(files: seq<TraceFile>): seq<TraceFile> {
    Sorted(files, LargerPath())
  }

  /** A day's files are searched in descending order of path, none lost or added. */
  lemma NewestFirstSorts(files: seq<TraceFile>)
    ensures multiset(NewestFirst(files)) == multiset(files)
    ensures var sorted := NewestFirst(files);
            forall i, j :: 0 <= i < j < |sorted| ==> !Less(sorted[i].path, sorted[j].path)
  {
    var less := LargerPath();
    forall x, y | less(x, y) ensures !less(y, x) {
      if less(y, x) {
        LessTransitive(x.path, y.path, x.path);
        LessIrreflexive(x.path);
      }
    }
    forall x, y, z | !less(x, y) && !less(y, z) ensures !less(x, z) {
      LessNegative(z.path, y.path, x.path);
    }
    SortedIsSort(files, less);
    var sorted := NewestFirst(files);
    forall i, j | 0 <= i < j < |sorted| ensures !Less(sorted[i].path, sorted[j].path) {
      assert !less(sorted[j], sorted[i]);
    }
  }

  /** The files of the lookback in the order they are searched; matches(d) is the glob for d
      days ago. */
  function SearchOrder(matches: nat -> seq<TraceFile>, from: nat, lookback: nat): seq<TraceFile>
    requires from <= lookback
    decreases lookback - from
  {
    if from == lookback then [] else NewestFirst(matches(from)) + SearchOrder(matches, from + 1, lookback)
  }

  /** The early-exit search: the latest event of the first file that has one. */
  function Search(parse: Parser, files: seq<TraceFile>): Option<Event> {
    if files == [] then None
    else if FileEvents(parse, files[0]) != [] then Latest(None, FileEvents(parse, files[0]))
    else Search(parse, files[1..])
  }

  function AllEvents(parse: Parser, files: seq<TraceFile>): seq<Event> {
    if files == [] then [] else FileEvents(parse, files[0]) + AllEvents(parse, files[1..])
  }

  // ---- the search itself --------------------------------------------------------------------------

  /** The scan of one open file. */
  method ScanLines(parse: Parser, lines: seq<string>, held: Option<Event>) returns (latest: Option<Event>)
    ensures latest == Latest(held, EventsIn(parse, lines))
  {
    latest := held;
    assert lines[0..] == lines;
    for i := 0 to |lines|
      invariant Latest(latest, EventsIn(parse, lines[i..])) == Latest(held, EventsIn(parse, lines))
    {
      assert lines[i..][0] == lines[i] && lines[i..][1..] == lines[i + 1..];
      match parse(lines[i])
      case Some(e) =>
        LatestStep(latest, e, EventsIn(parse, lines[i + 1..]));
        if latest.None? || e.time > latest.value.time {
          latest := Some(e);
        }
      case None =>
        assert [] + EventsIn(parse, lines[i + 1..]) == EventsIn(parse, lines[i + 1..]);
    }
  }

  lemma LatestStep(held: Option<Event>, e: Event, events: seq<Event>)
    ensures Latest(held, [e] + events)
            == Latest(if held.None? || e.time > held.value.time then Some(e) else held, events)
  {
    assert ([e] + events)[1..] == events;
  }

  lemma {:induction false} LatestFound(held: Option<Event>, events: seq<Event>)
    ensures Latest(held, events).None? <==> held.None? && events == []
    decreases |events|
  {
    if events != [] {
      LatestFound(if held.None? || events[0].time > held.value.time then Some(events[0]) else held, events[1..]);
    }
  }

  lemma {:induction false} SearchConcat(parse: Parser, a: seq<TraceFile>, b: seq<TraceFile>)
    ensures Search(parse, a + b) == if Search(parse, a).Some? then Search(parse, a) else Search(parse, b)
  {
    if a == [] {
      assert a + b == b;
    } else {
      assert (a + b)[1..] == a[1..] + b;
      LatestFound(None, FileEvents(parse, a[0]));
      SearchConcat(parse, a[1..], b);
    }
  }

  /** The files of one day, newest first, left at the first that has an event. */
  method SearchDay(parse: Parser, files: seq<TraceFile>) returns (latest: Option<Event>)
    ensures latest == Search(parse, NewestFirst(files))
  {
    var sorted := NewestFirst(files);
    latest := None;
    assert sorted[0..] == sorted;
    for i := 0 to |sorted|
      invariant latest.None? && Search(parse, sorted[i..]) == Search(parse, sorted)
    {
      assert sorted[i..][0] == sorted[i] && sorted[i..][1..] == sorted[i + 1..];
      match sorted[i].lines
      case None => continue;
      case Some(lines) =>
        latest := ScanLines(parse, lines, None);
        LatestFound(None, EventsIn(parse, lines));
        if latest.Some? {
          return;
        }
    }
  }

  function DelayOf(now: int, epoch: int, minDelay: int): int {
    var delay := if now - epoch < 0 then 0 else now - epoch;
    if minDelay > 0 && delay <= minDelay / 1_000_000_000 then 0 else delay
  }

  function DistributorActivity(
      parse: Parser, matches: nat -> seq<TraceFile>, tracelogDir: string,
      base: string, stream: string, node: string, lookback: int, minDelay: int, now: int): NodeActivity
  {
    if tracelogDir == "" || lookback <= 0 then ActivityFrom(None, base, stream, node, minDelay, now)
    else ActivityFrom(Search(parse, SearchOrder(matches, 0, lookback)), base, stream, node, minDelay, now)
  }

  /** The record of a distributor from the event found for it, if any. */
  function ActivityFrom(
      found: Option<Event>, base: string, stream: string, node: string, minDelay: int, now: int): NodeActivity
  {
    match found
    case None => NodeActivity(base, stream, node, "distributor", 0, 0, "-", false)
    case Some(e) => NodeActivity(base, stream, node, "distributor", e.time, DelayOf(now, e.time, minDelay), e.file, true)
  }

  /** ScanDistributorActivity; minDelay is in nanoseconds, times are Unix seconds. */
  method ScanDistributorActivity(
      parse: Parser, matches: nat -> seq<TraceFile>, tracelogDir: string,
      base: string, stream: string, node: string, lookback: int, minDelay: int, now: int)
    returns (act: NodeActivity)
    ensures act == DistributorActivity(parse, matches, tracelogDir, base, stream, node, lookback, minDelay, now)
  {
    if tracelogDir == "" || lookback <= 0 {
      return NodeActivity(base, stream, node, "distributor", 0, 0, "-", false);
    }
    var found: Option<Event> := None;
    for d := 0 to lookback
      invariant found.None?
      invariant Search(parse, SearchOrder(matches, d, lookback)) == Search(parse, SearchOrder(matches, 0, lookback))
    {
      SearchConcat(parse, NewestFirst(matches(d)), SearchOrder(matches, d + 1, lookback));
      found := SearchDay(parse, matches(d));
      if found.Some? {
        break;
      }
    }
    if found.None? {
      return NodeActivity(base, stream, node, "distributor", 0, 0, "-", false);
    }
    var epoch := found.value.time;
    var delay := now - epoch;
    if delay < 0 {
      delay := 0;
    }
    if minDelay > 0 && delay <= minDelay / 1_000_000_000 {
      delay := 0;
    }
    act := NodeActivity(base, stream, node, "distributor", epoch, delay, found.value.file, true);
  }

  // ---- early exit against full search ------------------------------------------------------------------

  predicate NoneNewer(found: Event, events: seq<Event>) {
    forall j :: 0 <= j < |events| ==> events[j].time <= found.time
  }

  predicate AllOlder(events: seq<Event>, found: Event) {
    forall j :: 0 <= j < |events| ==> events[j].time < found.time
  }

  /** r is the first event attaining the maximum time. */
  predicate FirstLatest(r: Event, events: seq<Event>) {
    NoneNewer(r, events) && exists i :: 0 <= i < |events| && events[i] == r && AllOlder(events[..i], r)
  }

  lemma {:induction false} LatestUnbeaten(held: Event, events: seq<Event>)
    requires NoneNewer(held, events)
    ensures Latest(Some(held), events) == Some(held)
    decreases |events|
  {
    if events != [] {
      LatestUnbeaten(held, events[1..]);
    }
  }

  lemma FirstLatestLater(r: Event, first: Event, rest: seq<Event>)
    requires FirstLatest(r, rest) && first.time < r.time
    ensures FirstLatest(r, [first] + rest)
  {
    var events := [first] + rest;
    var i :| 0 <= i < |rest| && rest[i] == r && AllOlder(rest[..i], r);
    assert events[..i + 1] == [first] + rest[..i];
    assert events[i + 1] == r && AllOlder(events[..i + 1], r);
  }

  lemma FirstLatestHere(first: Event, rest: seq<Event>)
    requires NoneNewer(first, rest)
    ensures FirstLatest(first, [first] + rest)
  {
    var events := [first] + rest;
    assert events[0] == first && AllOlder(events[..0], first);
  }

  lemma {:induction false} LatestBeaten(held: Event, events: seq<Event>)
    requires !NoneNewer(held, events)
    ensures var r := Latest(Some(held), events);
            r.Some? && r.value.time > held.time && FirstLatest(r.value, events)
    decreases |events|, 0
  {
    var first, rest := events[0], events[1..];
    assert events == [first] + rest;
    if first.time > held.time {
      FromFirst(first, rest);
    } else {
      LatestBeaten(held, rest);
      FirstLatestLater(Latest(Some(held), rest).value, first, rest);
    }
  }

  lemma {:induction false} FromFirst(first: Event, rest: seq<Event>)
    ensures var r := Latest(Some(first), rest);
            r.Some? && r.value.time >= first.time && FirstLatest(r.value, [first] + rest)
    decreases |rest|, 1
  {
    if NoneNewer(first, rest) {
      LatestUnbeaten(first, rest);
      FirstLatestHere(first, rest);
    } else {
      LatestBeaten(first, rest);
      FirstLatestLater(Latest(Some(first), rest).value, first, rest);
    }
  }

  /** What the fold computes: the first event attaining the largest time. */
  lemma LatestMeaning(events: seq<Event>)
    requires events != []
    ensures Latest(None, events).Some? && FirstLatest(Latest(None, events).value, events)
  {
    FromFirst(events[0], events[1..]);
    assert events == [events[0]] + events[1..];
  }

  /** What the search returns in general: the first event attaining the maximum of the first
      file that has any event, and nothing when no file has one. */
  lemma {:induction false} SearchMeaning(parse: Parser, files: seq<TraceFile>) returns (i: nat)
    ensures i <= |files| && forall j :: 0 <= j < i ==> FileEvents(parse, files[j]) == []
    ensures i == |files| <==> Search(parse, files).None?
    ensures i < |files| ==> FirstLatest(Search(parse, files).value, FileEvents(parse, files[i]))
  {
    i := 0;
    if files != [] {
      var here := FileEvents(parse, files[0]);
      if here == [] {
        var k := SearchMeaning(parse, files[1..]);
        assert forall j :: 1 <= j < |files| ==> files[j] == files[1..][j - 1];
        i := k + 1;
      } else {
        LatestMeaning(here);
      }
    }
  }

  lemma {:induction false} LatestConcat(held: Option<Event>, a: seq<Event>, b: seq<Event>)
    ensures Latest(held, a + b) == Latest(Latest(held, a), b)
    decreases |a|
  {
    if a == [] {
      assert a + b == b;
    } else {
      assert (a + b)[1..] == a[1..] + b;
      LatestConcat(if held.None? || a[0].time > held.value.time then Some(a[0]) else held, a[1..], b);
    }
  }

  /** The i-th file is the first that has an event. */
  predicate FirstWithEvents(parse: Parser, files: seq<TraceFile>, i: nat) {
    && i < |files| && FileEvents(parse, files[i]) != []
    && forall h :: 0 <= h < i ==> FileEvents(parse, files[h]) == []
  }

  /** Each event of g is matched by one of f that is at least as new. */
  predicate KeepsUp(parse: Parser, f: TraceFile, g: TraceFile) {
    forall y :: y in FileEvents(parse, g) ==> exists x :: x in FileEvents(parse, f) && y.time <= x.time
  }

  /** The first file that has an event keeps up with every file searched after it. */
  predicate FirstFileLeads(parse: Parser, files: seq<TraceFile>) {
    forall i, j :: 0 <= i < j < |files| && FirstWithEvents(parse, files, i) ==> KeepsUp(parse, files[i], files[j])
  }

  lemma LeadsSkips(parse: Parser, files: seq<TraceFile>)
    requires files != [] && FileEvents(parse, files[0]) == []
    ensures FirstFileLeads(parse, files) <==> FirstFileLeads(parse, files[1..])
  {
    var rest := files[1..];
    forall i | 0 <= i < |rest| ensures FirstWithEvents(parse, files, i + 1) <==> FirstWithEvents(parse, rest, i) {
      assert rest[i] == files[i + 1];
      assert forall h :: 1 <= h < |files| ==> files[h] == rest[h - 1];
    }
    if FirstFileLeads(parse, files) {
      forall i, j | 0 <= i < j < |rest| && FirstWithEvents(parse, rest, i) ensures KeepsUp(parse, rest[i], rest[j]) {
        assert FirstWithEvents(parse, files, i + 1) && rest[j] == files[j + 1];
      }
    }
    if FirstFileLeads(parse, rest) {
      forall i, j | 0 <= i < j < |files| && FirstWithEvents(parse, files, i) ensures KeepsUp(parse, files[i], files[j]) {
        assert FirstWithEvents(parse, rest, i - 1) && files[j] == rest[j - 1];
      }
    }
  }

  lemma {:induction false} EventIsListed(parse: Parser, files: seq<TraceFile>, j: nat, y: Event)
    requires j < |files| && y in FileEvents(parse, files[j])
    ensures y in AllEvents(parse, files)
  {
    if j > 0 {
      EventIsListed(parse, files[1..], j - 1, y);
    }
  }

  /** With the first file holding the event found, keeping up is having nothing newer later. */
  lemma LeadsHere(parse: Parser, files: seq<TraceFile>, found: Event)
    requires files != [] && found in FileEvents(parse, files[0]) && NoneNewer(found, FileEvents(parse, files[0]))
    ensures FirstFileLeads(parse, files) <==> NoneNewer(found, AllEvents(parse, files[1..]))
  {
    var here, later := FileEvents(parse, files[0]), AllEvents(parse, files[1..]);
    assert FirstWithEvents(parse, files, 0);
    if FirstFileLeads(parse, files) {
      forall k | 0 <= k < |later| ensures later[k].time <= found.time {
        var j := HolderOf(parse, files[1..], later[k]);
        assert KeepsUp(parse, files[0], files[j + 1]);
        var x :| x in here && later[k].time <= x.time;
      }
    }
    if NoneNewer(found, later) {
      forall j | 0 < j < |files| ensures KeepsUp(parse, files[0], files[j]) {
        forall y | y in FileEvents(parse, files[j]) ensures y.time <= found.time {
          EventIsListed(parse, files[1..], j - 1, y);
        }
      }
    }
  }

  lemma HolderOf(parse: Parser, files: seq<TraceFile>, y: Event) returns (j: nat)
    requires y in AllEvents(parse, files)
    ensures j < |files| && y in FileEvents(parse, files[j])
  {
    EventsOfLater(parse, files, y);
    j :| 0 <= j < |files| && y in FileEvents(parse, files[j]);
  }

  /** Early exit finds the same timestamp and file as a fold over every event in the lookback
      exactly when the first file with an event keeps up with all files searched after it. */
  lemma {:induction false} EarlyExitIsFullSearchIff(parse: Parser, files: seq<TraceFile>)
    ensures Search(parse, files) == Latest(None, AllEvents(parse, files)) <==> FirstFileLeads(parse, files)
  {
    if files != [] {
      var here, rest := FileEvents(parse, files[0]), AllEvents(parse, files[1..]);
      if here == [] {
        assert [] + rest == rest;
        EarlyExitIsFullSearchIff(parse, files[1..]);
        LeadsSkips(parse, files);
      } else {
        LatestConcat(None, here, rest);
        LatestMeaning(here);
        var found := Latest(None, here).value;
        LeadsHere(parse, files, found);
        if NoneNewer(found, rest) {
          LatestUnbeaten(found, rest);
        } else {
          LatestBeaten(found, rest);
        }
      }
    }
  }

  /** The record of a scan that reads every trace file of the lookback and takes the latest. */
  function FullActivity(
      parse: Parser, matches: nat -> seq<TraceFile>,
      base: string, stream: string, node: string, lookback: nat, minDelay: int, now: int): NodeActivity
  {
    ActivityFrom(Latest(None, AllEvents(parse, SearchOrder(matches, 0, lookback))), base, stream, node, minDelay, now)
  }

  /** The reported activity is that of the full scan under exactly that condition. */
  lemma ActivityIsFullIff(
      parse: Parser, matches: nat -> seq<TraceFile>, tracelogDir: string,
      base: string, stream: string, node: string, lookback: int, minDelay: int, now: int)
    requires tracelogDir != "" && lookback > 0
    ensures DistributorActivity(parse, matches, tracelogDir, base, stream, node, lookback, minDelay, now)
            == FullActivity(parse, matches, base, stream, node, lookback, minDelay, now)
            <==> FirstFileLeads(parse, SearchOrder(matches, 0, lookback))
  {
    var files := SearchOrder(matches, 0, lookback);
    EarlyExitIsFullSearchIff(parse, files);
    ActivityTellsEvent(Search(parse, files), Latest(None, AllEvents(parse, files)), base, stream, node, minDelay, now);
  }

  lemma ActivityTellsEvent(
      found: Option<Event>, other: Option<Event>, base: string, stream: string, node: string, minDelay: int, now: int)
    ensures ActivityFrom(found, base, stream, node, minDelay, now) == ActivityFrom(other, base, stream, node, minDelay, now)
            <==> found == other
  {
  }

  // ---- trace files whose names are not in time order --------------------------------------------

  lemma {:induction false} LessAfterPrefix(prefix: string, a: string, b: string)
    ensures Less(prefix + a, prefix + b) <==> Less(a, b)
  {
    if prefix == "" {
      assert prefix + a == a && prefix + b == b;
    } else {
      assert (prefix + a)[1..] == prefix[1..] + a && (prefix + b)[1..] == prefix[1..] + b;
      LessAfterPrefix(prefix[1..], a, b);
    }
  }

  /** Numbered files of one day, 9 older than 10: the text order puts 9 first. */
  lemma NineBeforeTen(prefix: string, nine: TraceFile, ten: TraceFile)
    requires nine.path == prefix + "9" && ten.path == prefix + "10"
    ensures NewestFirst([ten, nine]) == [nine, ten]
  {
    LessAfterPrefix(prefix, "10", "9");
    assert Less("10", "9");
    var less := LargerPath();
    assert less(nine, ten);
    assert [ten, nine][1..] == [nine] && [nine][1..] == [];
    assert Sorted([nine], less) == [nine];
    assert Insert(ten, [nine], less) == [nine] + Insert(ten, [], less);
  }

  /** With rotation numbers 9 and 10 in one day, the search stops at file 9 and reports its event,
      although the event in file 10 is newer. */
  lemma NumberedFilesMislead(
      parse: Parser, matches: nat -> seq<TraceFile>, prefix: string, nine: TraceFile, ten: TraceFile, x: Event, y: Event)
    requires nine.path == prefix + "9" && ten.path == prefix + "10" && matches(0) == [ten, nine]
    requires FileEvents(parse, nine) == [x] && FileEvents(parse, ten) == [y] && x.time < y.time
    ensures Search(parse, SearchOrder(matches, 0, 1)) == Some(x)
    ensures Latest(None, AllEvents(parse, SearchOrder(matches, 0, 1))) == Some(y)
    ensures !FirstFileLeads(parse, SearchOrder(matches, 0, 1))
  {
    NineBeforeTen(prefix, nine, ten);
    var files := SearchOrder(matches, 0, 1);
    assert SearchOrder(matches, 1, 1) == [];
    assert files == [nine, ten] && files[1..] == [ten] && files[1..][1..] == [];
    assert AllEvents(parse, [ten]) == [y] + [] == [y];
    assert AllEvents(parse, files) == [x] + [y] == [x, y];
    assert [x][1..] == [] && [x, y][1..] == [y] && [y][1..] == [];
    assert Latest(None, [x]) == Latest(Some(x), [x][1..]) == Some(x);
    assert Latest(Some(x), [y]) == Latest(Some(y), [y][1..]) == Some(y);
    assert Latest(None, [x, y]) == Latest(Some(x), [x, y][1..]);
    EarlyExitIsFullSearchIff(parse, files);
  }

  /** Trace files in time order, as the search assumes: no event of a file is older than one
      of a file searched after it. */
  predicate InTimeOrder(parse: Parser, files: seq<TraceFile>) {
    forall i, j :: 0 <= i < j < |files| ==>
      forall x, y :: x in FileEvents(parse, files[i]) && y in FileEvents(parse, files[j]) ==> y.time <= x.time
  }

  lemma {:induction false} EventsOfLater(parse: Parser, files: seq<TraceFile>, y: Event)
    requires y in AllEvents(parse, files)
    ensures exists j :: 0 <= j < |files| && y in FileEvents(parse, files[j])
  {
    if y !in FileEvents(parse, files[0]) {
      EventsOfLater(parse, files[1..], y);
      var j :| 0 <= j < |files[1..]| && y in FileEvents(parse, files[1..][j]);
      assert files[1..][j] == files[j + 1];
    }
  }

  /** Over files in time order the early exit loses nothing. */
  lemma EarlyExitIsFullSearch(parse: Parser, files: seq<TraceFile>)
    requires InTimeOrder(parse, files)
    ensures Search(parse, files) == Latest(None, AllEvents(parse, files))
  {
    forall i, j | 0 <= i < j < |files| && FirstWithEvents(parse, files, i) ensures KeepsUp(parse, files[i], files[j]) {
      assert FileEvents(parse, files[i])[0] in FileEvents(parse, files[i]);
    }
    EarlyExitIsFullSearchIff(parse, files);
  }

  /** The delay is the age of the event, or 0 when the event is in the future or its age does
      not exceed the whole seconds of min_delay. */
  lemma DelayMeaning(now: int, epoch: int, minDelay: int)
    ensures var d := DelayOf(now, epoch, minDelay);
            && (d == now - epoch || d == 0) && d >= 0
            && (d == 0 <==> now - epoch <= 0 || (minDelay > 0 && (now - epoch) * 1_000_000_000 <= minDelay))
  {
    if minDelay > 0 {
      assert now - epoch <= minDelay / 1_000_000_000 <==> (now - epoch) * 1_000_000_000 <= minDelay;
    }
  }
}
