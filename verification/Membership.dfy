/**
 Which VPN clients are connected, as three parties see it: the server's management-interface
 reader, the MQTT broker's retained topics, and the CLI.
 */
module Membership {
  import opened Text

  predicate IsLog(line: string) {
    ">LOG:" <= line
  }

  predicate IsStart(line: string) {
    line == "ROUTING TABLE"
  }

  predicate IsEnd(line: string) {
    line == "GLOBAL STATS" || line == "END"
  }

  /** `parse_routing_row`: the virtual address of a row, or "" for a line that is none. */
  function ParseRoutingRow(line: string): string {
    if line == "" || line[0] == 'V' then
      ""
    else
      var comma := IndexOf(line, ',');
      if comma == |line| || '.' !in line[..comma] then "" else line[..comma]
  }

  /** The address a line contributes to an open table. */
  function RowOf(line: string): set<string> {
    if IsLog(line) || ParseRoutingRow(line) == "" then {} else {ParseRoutingRow(line)}
  }

  /** The address of a row is what stands before its first comma; it must hold a dot, and the row must be neither the
      header, which starts with V, nor a log line. */
  lemma RowIs(line: string, vip: string)
    ensures vip in RowOf(line) <==>
            !(">LOG:" <= line) && vip + "," <= line && ',' !in vip && '.' in vip && line[0] != 'V'
  {
    var comma := if line == "" then 0 else IndexOf(line, ',');
    if vip + "," <= line && ',' !in vip {
      var rest := line[|vip| + 1..];
      assert line == vip + [','] + rest;
      IndexBehind(vip, ',', rest);
      assert line[..|vip|] == vip;
    }
    if vip in RowOf(line) {
      assert line[..comma] + "," == line[..comma + 1];
    }
  }

  datatype Tracker = Tracker(inTable: bool, polled: set<string>, active: set<string>)

  const EMPTY := Tracker(false, {}, {})

  function TrackerStep(t: Tracker, line: string): Tracker {
    if IsLog(line) then t
    else if IsStart(line) then t.(inTable := true, polled := {})
    else if IsEnd(line) then
      if t.inTable then t.(inTable := false, active := t.polled) else t
    else if t.inTable then t.(polled := t.polled + RowOf(line))
    else t
  }

  function Track(t: Tracker, lines: seq<string>): Tracker {
    if lines == [] then t else TrackerStep(Track(t, lines[..|lines| - 1]), lines[|lines| - 1])
  }

  // The reference: what a table is, without any state.

  /** A table runs from its title to the next terminator, with no other title or terminator between. */
  ghost predicate Table(lines: seq<string>, title: int, end: int) {
    0 <= title < end < |lines| && IsStart(lines[title]) && IsEnd(lines[end]) && Plain(lines, title + 1, end)
  }

  ghost predicate Plain(lines: seq<string>, from: int, to: int)
    requires 0 <= from && to <= |lines|
  {
    forall i :: from <= i < to ==> !IsStart(lines[i]) && !IsEnd(lines[i])
  }

  ghost predicate LastTable(lines: seq<string>, title: int, end: int) {
    Table(lines, title, end) && forall t, e :: Table(lines, t, e) ==> e <= end
  }

  ghost predicate NoTable(lines: seq<string>) {
    forall t, e :: !Table(lines, t, e)
  }

  ghost predicate OpenAt(lines: seq<string>, title: int) {
    0 <= title < |lines| && IsStart(lines[title]) && Plain(lines, title + 1, |lines|)
  }

  function Rows(lines: seq<string>, from: nat, to: nat): set<string>
    requires from <= to <= |lines|
  {
    if from == to then {} else Rows(lines, from, to - 1) + RowOf(lines[to - 1])
  }

  lemma {:induction false} RowsOfLonger(lines: seq<string>, line: string, from: nat, to: nat)
    requires from <= to <= |lines|
    ensures Rows(lines + [line], from, to) == Rows(lines, from, to)
  {
    if from != to {
      RowsOfLonger(lines, line, from, to - 1);
    }
  }

  lemma TableOfLonger(lines: seq<string>, line: string, title: int, end: int)
    ensures end < |lines| ==> (Table(lines + [line], title, end) <==> Table(lines, title, end))
    ensures end == |lines| ==> (Table(lines + [line], title, end) <==> OpenAt(lines, title) && IsEnd(line))
    ensures end > |lines| ==> !Table(lines + [line], title, end)
  {
    var longer := lines + [line];
    assert forall i :: 0 <= i < |lines| ==> longer[i] == lines[i];
    assert longer[|lines|] == line;
    hide IsStart, IsEnd;
    if 0 <= title < end <= |lines| {
      assert Plain(longer, title + 1, end) <==> Plain(lines, title + 1, end);
    }
  }

  lemma OpenOfLonger(lines: seq<string>, line: string, title: int)
    ensures OpenAt(lines + [line], title) <==>
            if title == |lines| then IsStart(line) else OpenAt(lines, title) && !IsStart(line) && !IsEnd(line)
  {
    var longer := lines + [line];
    assert forall i :: 0 <= i < |lines| ==> longer[i] == lines[i];
    assert longer[|lines|] == line;
    hide IsStart, IsEnd;
    if 0 <= title < |lines| {
      assert Plain(longer, title + 1, |longer|) <==> Plain(lines, title + 1, |lines|) && !IsStart(line) && !IsEnd(line);
    }
  }

  /** Where the tracker's state comes from: the open title, if any, and the last table, if any. */
  datatype Origin = Origin(open: Option<nat>, last: Option<(nat, nat)>)

  ghost predicate Explains(o: Origin, lines: seq<string>) {
    var t := Track(EMPTY, lines);
    && (match o.open
        case None => !t.inTable && forall q :: !OpenAt(lines, q)
        case Some(q) => t.inTable && OpenAt(lines, q) && t.polled == Rows(lines, q + 1, |lines|))
    && (match o.last
        case None => NoTable(lines) && t.active == {}
        case Some((q, e)) => LastTable(lines, q, e) && t.active == Rows(lines, q + 1, e))
  }

  lemma TrackMore(t: Tracker, lines: seq<string>, line: string)
    ensures Track(t, lines + [line]) == TrackerStep(Track(t, lines), line)
  {
    assert (lines + [line])[..|lines|] == lines;
  }

  /** The open title after one more line. */
  ghost function OpenAfter(o: Origin, lines: seq<string>, line: string): Option<nat> {
    if IsStart(line) then Some(|lines|) else if IsEnd(line) then None else o.open
  }

  ghost function LastAfter(o: Origin, lines: seq<string>, line: string): Option<(nat, nat)> {
    if IsEnd(line) && o.open.Some? then Some((o.open.value, |lines|)) else o.last
  }

  lemma Kinds(line: string)
    ensures IsStart(line) ==> !IsLog(line) && !IsEnd(line)
    ensures IsEnd(line) ==> !IsLog(line)
    ensures IsLog(line) ==> RowOf(line) == {}
  {
    assert IsStart(line) || IsEnd(line) ==> line[0] != '>';
  }

  lemma StepOfKind(t: Tracker, line: string)
    ensures IsStart(line) ==> TrackerStep(t, line) == Tracker(true, {}, t.active)
    ensures IsEnd(line) ==> TrackerStep(t, line) == Tracker(false, t.polled, if t.inTable then t.polled else t.active)
    ensures !IsStart(line) && !IsEnd(line) ==>
              TrackerStep(t, line) ==
              Tracker(t.inTable, if t.inTable then t.polled + RowOf(line) else t.polled, t.active)
  {
    Kinds(line);
    hide IsStart, IsEnd, IsLog, RowOf;
  }

  lemma OpenBounds(lines: seq<string>, title: int)
    ensures OpenAt(lines, title) ==> 0 <= title < |lines|
  {
  }

  lemma TableBounds(lines: seq<string>, title: int, end: int)
    ensures Table(lines, title, end) ==> 0 <= title < end < |lines|
  {
  }

  lemma ExplainsOpen(o: Origin, lines: seq<string>, line: string)
    requires Explains(o, lines)
    ensures var t := Track(EMPTY, lines + [line]);
            match OpenAfter(o, lines, line)
            case None => !t.inTable && forall q :: !OpenAt(lines + [line], q)
            case Some(q) =>
              t.inTable && OpenAt(lines + [line], q) && t.polled == Rows(lines + [line], q + 1, |lines| + 1)
  {
    Kinds(line);
    TrackMore(EMPTY, lines, line);
    StepOfKind(Track(EMPTY, lines), line);
    hide OpenAt, NoTable, LastTable, Track, IsStart, IsEnd, RowOf, TrackerStep;
    forall q {
      OpenOfLonger(lines, line, q);
    }
    if !IsStart(line) && !IsEnd(line) && o.open.Some? {
      OpenBounds(lines, o.open.value);
      RowsOfLonger(lines, line, o.open.value + 1, |lines|);
      assert (lines + [line])[|lines|] == line;
    }
  }

  lemma ExplainsLast(o: Origin, lines: seq<string>, line: string)
    requires Explains(o, lines)
    ensures var t := Track(EMPTY, lines + [line]);
            match LastAfter(o, lines, line)
            case None => NoTable(lines + [line]) && t.active == {}
            case Some((q, e)) => LastTable(lines + [line], q, e) && t.active == Rows(lines + [line], q + 1, e)
  {
    Kinds(line);
    TrackMore(EMPTY, lines, line);
    StepOfKind(Track(EMPTY, lines), line);
    hide OpenAt, Table, Track, IsStart, IsEnd, RowOf, TrackerStep, Rows;
    forall q, e {
      TableOfLonger(lines, line, q, e);
    }
    if IsEnd(line) && o.open.Some? {
      OpenBounds(lines, o.open.value);
      RowsOfLonger(lines, line, o.open.value + 1, |lines|);
    } else if o.last.Some? {
      TableBounds(lines, o.last.value.0, o.last.value.1);
      RowsOfLonger(lines, line, o.last.value.0 + 1, o.last.value.1);
    }
  }

  lemma LastTableUnique(lines: seq<string>, t: nat, e: nat, t': nat, e': nat)
    requires LastTable(lines, t, e) && LastTable(lines, t', e')
    ensures t == t' && e == e'
  {
  }

  lemma {:induction false} OriginOf(lines: seq<string>) returns (o: Origin)
    ensures Explains(o, lines)
  {
    if lines == [] {
      o := Origin(None, None);
    } else {
      var init, line := lines[..|lines| - 1], lines[|lines| - 1];
      var p := OriginOf(init);
      assert lines == init + [line];
      ExplainsOpen(p, init, line);
      ExplainsLast(p, init, line);
      hide OpenAt, NoTable, LastTable, Track, Rows;
      o := Origin(OpenAfter(p, init, line), LastAfter(p, init, line));
    }
  }

  /** The address of one of the rows. */
  ghost predicate Listed(rows: seq<string>, vip: string) {
    exists i :: 0 <= i < |rows| && vip in RowOf(rows[i])
  }

  lemma ListedMore(rows: seq<string>, row: string, vip: string)
    ensures Listed(rows + [row], vip) <==> Listed(rows, vip) || vip in RowOf(row)
  {
    var more := rows + [row];
    assert more[|rows|] == row && forall i :: 0 <= i < |rows| ==> more[i] == rows[i];
    hide RowOf;
  }

  lemma {:induction false} RowsAreListed(lines: seq<string>, from: nat, to: nat, vip: string)
    requires from <= to <= |lines|
    ensures vip in Rows(lines, from, to) <==> Listed(lines[from..to], vip)
  {
    hide RowOf;
    if from != to {
      RowsAreListed(lines, from, to - 1, vip);
      assert lines[from..to] == lines[from..to - 1] + [lines[to - 1]];
      ListedMore(lines[from..to - 1], lines[to - 1], vip);
    }
  }

  /** A poll as the server prints it: after title, rows and terminator, whatever came before, the active addresses are
      those of the rows. */
  lemma PollIsRead(before: seq<string>, rows: seq<string>, end: string)
    requires forall i :: 0 <= i < |rows| ==> rows[i] !in {"ROUTING TABLE", "GLOBAL STATS", "END"}
    requires end in {"GLOBAL STATS", "END"}
    ensures var active := Track(EMPTY, before + ["ROUTING TABLE"] + rows + [end]).active;
            forall vip :: vip in active <==> Listed(rows, vip)
  {
    var lines := before + ["ROUTING TABLE"] + rows + [end];
    var title, last := |before|, |lines| - 1;
    LastPoll(before, rows, end);
    hide Rows, Track, Listed, LastTable;
    ActiveIsLastTable(lines, title, last);
    assert rows == lines[title + 1..last];
    forall vip
      ensures vip in Rows(lines, title + 1, last) <==> Listed(rows, vip)
    {
      RowsAreListed(lines, title + 1, last, vip);
    }
  }

  lemma LastPoll(before: seq<string>, rows: seq<string>, end: string)
    requires forall i :: 0 <= i < |rows| ==> rows[i] !in {"ROUTING TABLE", "GLOBAL STATS", "END"}
    requires end in {"GLOBAL STATS", "END"}
    ensures var lines := before + ["ROUTING TABLE"] + rows + [end];
            LastTable(lines, |before|, |lines| - 1)
  {
    var lines := before + ["ROUTING TABLE"] + rows + [end];
    var title, last := |before|, |lines| - 1;
    assert lines[title] == "ROUTING TABLE" && lines[last] == end;
    assert rows == lines[title + 1..last];
    assert forall i :: title < i < last ==> lines[i] in rows;
    assert Table(lines, title, last);
  }

  /** After any lines, the active addresses are the rows of the last completed table... */
  lemma ActiveIsLastTable(lines: seq<string>, title: nat, end: nat)
    requires LastTable(lines, title, end)
    ensures Track(EMPTY, lines).active == Rows(lines, title + 1, end)
  {
    var o := OriginOf(lines);
    if o.last.Some? {
      LastTableUnique(lines, title, end, o.last.value.0, o.last.value.1);
    }
  }

  /** ...and none, if no table was ever completed. */
  lemma NoTableNoActive(lines: seq<string>)
    requires NoTable(lines)
    ensures Track(EMPTY, lines).active == {}
  {
    var o := OriginOf(lines);
  }

  // The byte stream.

  /** A received line without its terminator: a trailing carriage return goes. */
  function Trim(line: string): string {
    if line != "" && line[|line| - 1] == '\r' then line[..|line| - 1] else line
  }

  /** What the reader makes of one raw line; an empty one is skipped. */
  function Feed(t: Tracker, raw: string): Tracker {
    if Trim(raw) == "" then t else TrackerStep(t, Trim(raw))
  }

  function FeedAll(t: Tracker, raws: seq<string>): Tracker
    decreases |raws|
  {
    if raws == [] then t else FeedAll(Feed(t, raws[0]), raws[1..])
  }

  /** The complete lines of a stream, and the unfinished one behind them. */
  function Complete(stream: string): seq<string> {
    var fields := Split(stream, '\n');
    fields[..|fields| - 1]
  }

  function Unfinished(stream: string): string {
    var fields := Split(stream, '\n');
    fields[|fields| - 1]
  }

  /** The lines the parser is given. */
  function Lines(raws: seq<string>): seq<string> {
    if raws == [] then []
    else Lines(raws[..|raws| - 1]) + (if Trim(raws[|raws| - 1]) == "" then [] else [Trim(raws[|raws| - 1])])
  }

  lemma {:induction false} FeedAllConcat(t: Tracker, a: seq<string>, b: seq<string>)
    ensures FeedAll(t, a + b) == FeedAll(FeedAll(t, a), b)
    decreases |a|
  {
    if a == [] {
      assert a + b == b;
    } else {
      FeedAllConcat(Feed(t, a[0]), a[1..], b);
      assert (a + b)[1..] == a[1..] + b;
    }
  }

  lemma FeedOne(t: Tracker, raw: string)
    ensures FeedAll(t, [raw]) == Feed(t, raw)
  {
    assert [raw][1..] == [];
  }

  lemma LinesMore(raws: seq<string>, raw: string)
    ensures Lines(raws + [raw]) == Lines(raws) + (if Trim(raw) == "" then [] else [Trim(raw)])
  {
    Init(raws, raw);
  }

  lemma TrackFeed(raws: seq<string>, raw: string)
    ensures Track(EMPTY, Lines(raws + [raw])) == Feed(Track(EMPTY, Lines(raws)), raw)
  {
    hide TrackerStep, Trim, Track, Lines;
    LinesMore(raws, raw);
    if Trim(raw) != "" {
      TrackMore(EMPTY, Lines(raws), Trim(raw));
    } else {
      assert Lines(raws) + [] == Lines(raws);
    }
  }

  /** Reading raw lines is tracking the parsed ones. */
  lemma {:induction false} FeedAllTracks(raws: seq<string>)
    ensures FeedAll(EMPTY, raws) == Track(EMPTY, Lines(raws))
    decreases |raws|
  {
    if raws != [] {
      var init, raw := raws[..|raws| - 1], raws[|raws| - 1];
      FeedAllTracks(init);
      hide TrackerStep, Trim, Track, Lines, FeedAll, Feed;
      Last(raws);
      TrackFeed(init, raw);
      FeedAllConcat(EMPTY, init, [raw]);
      FeedOne(FeedAll(EMPTY, init), raw);
    }
  }

  /** New bytes continue the unfinished line, and only that. */
  lemma CompleteAppend(stream: string, data: string)
    ensures Complete(stream + data) == Complete(stream) + Complete(Unfinished(stream) + data)
    ensures Unfinished(stream + data) == Unfinished(Unfinished(stream) + data)
  {
    SplitAppend(stream, data, '\n');
  }

  /** A text of lines, each ended by a line feed or by a carriage return and a line feed. */
  function Terminated(lines: seq<string>, crlf: seq<bool>): string
    requires |crlf| == |lines|
  {
    if lines == [] then ""
    else
      var n := |lines| - 1;
      Terminated(lines[..n], crlf[..n]) + lines[n] + (if crlf[n] then "\r\n" else "\n")
  }

  predicate IsLine(line: string) {
    line != "" && '\n' !in line && line[|line| - 1] != '\r'
  }

  /** Such a text is read as its lines, with nothing left over, whichever way they end. */
  lemma {:induction false} TerminatedLines(lines: seq<string>, crlf: seq<bool>)
    requires |crlf| == |lines|
    requires forall i :: 0 <= i < |lines| ==> IsLine(lines[i])
    ensures Lines(Complete(Terminated(lines, crlf))) == lines && Unfinished(Terminated(lines, crlf)) == ""
  {
    if lines == [] {
      assert Split("", '\n') == [""];
    } else {
      hide *;
      var n := |lines| - 1;
      var init, line := lines[..n], lines[n];
      Last(lines);
      TerminatedLines(init, crlf[..n]);
      TerminatedMore(lines, crlf);
      LineMore(init, Terminated(init, crlf[..n]), line, crlf[n]);
    }
  }

  /** One more line, ended in either way, behind a text that is read as `lines`. */
  lemma LineMore(lines: seq<string>, text: string, line: string, cr: bool)
    requires Lines(Complete(text)) == lines && Unfinished(text) == ""
    requires IsLine(line)
    ensures var more := text + ((if cr then line + "\r" else line) + ['\n']);
            Lines(Complete(more)) == lines + [line] && Unfinished(more) == ""
  {
    var raw := if cr then line + "\r" else line;
    assert Trim(raw) == line;
    hide *;
    AppendLine(text, raw);
    LinesMore(Complete(text), raw);
  }

  lemma TerminatedMore(lines: seq<string>, crlf: seq<bool>)
    requires |crlf| == |lines| && lines != []
    ensures var n := |lines| - 1;
            Terminated(lines, crlf) ==
            Terminated(lines[..n], crlf[..n]) + ((if crlf[n] then lines[n] + "\r" else lines[n]) + ['\n'])
  {
  }

  lemma AppendLine(text: string, raw: string)
    requires Unfinished(text) == "" && '\n' !in raw
    ensures Complete(text + (raw + ['\n'])) == Complete(text) + [raw]
    ensures Unfinished(text + (raw + ['\n'])) == ""
  {
    var line := raw + ['\n'];
    CompleteAppend(text, line);
    SplitFirst(raw, '\n', "");
    assert Split("", '\n') == [""];
    assert raw + ['\n'] + "" == line && "" + line == line;
    assert Split(line, '\n') == [raw, ""];
  }

  // Publications.

  const PREFIX: string := "clients/"

  /** A retained publication; an empty payload clears the topic. */
  datatype Publication = Publication(topic: string, payload: string)

  function Connected(vip: string): Publication {
    Publication(PREFIX + vip, "connected")
  }

  function Disconnected(vip: string): Publication {
    Publication(PREFIX + vip, "")
  }

  /** The `clients/` branch of the CLI's `on_message`. */
  function CliStep(vips: set<string>, p: Publication): set<string> {
    if !(PREFIX <= p.topic) then vips
    else if p.payload != "" then vips + {p.topic[|PREFIX|..]}
    else vips - {p.topic[|PREFIX|..]}
  }

  function CliRun(vips: set<string>, ps: seq<Publication>): set<string> {
    if ps == [] then vips else CliStep(CliRun(vips, ps[..|ps| - 1]), ps[|ps| - 1])
  }

  /** The topics the broker retains, when it retained some before: an earlier server may have left them. */
  function Retained(before: set<string>, ps: seq<Publication>): set<string> {
    if ps == [] then
      before
    else
      var topics, p := Retained(before, ps[..|ps| - 1]), ps[|ps| - 1];
      if p.payload != "" then topics + {p.topic} else topics - {p.topic}
  }

  /** The addresses that a CLI makes of the topics it is sent on subscribing. */
  function VipsOf(topics: set<string>): set<string> {
    set topic | topic in topics && PREFIX <= topic :: topic[|PREFIX|..]
  }

  /** The addresses that were ever published, as connected or as gone. */
  function Mentioned(ps: seq<Publication>): set<string> {
    if ps == [] then
      {}
    else
      var p := ps[|ps| - 1];
      Mentioned(ps[..|ps| - 1]) + (if PREFIX <= p.topic then {p.topic[|PREFIX|..]} else {})
  }

  class Cli {
    var connectedVips: set<string>

    constructor ()
      ensures connectedVips == {}
    {
      connectedVips := {};
    }

    method OnMessage(topic: string, payload: string)
      modifies this
      ensures connectedVips == CliStep(old(connectedVips), Publication(topic, payload))
    {
      if PREFIX <= topic {
        var vip := topic[|PREFIX|..];
        if |payload| > 0 {
          connectedVips := connectedVips + {vip};
        } else {
          connectedVips := connectedVips - {vip};
        }
        return;
      }
    }
  }

  lemma CliMore(vips: set<string>, ps: seq<Publication>, p: Publication)
    ensures CliRun(vips, ps + [p]) == CliStep(CliRun(vips, ps), p)
  {
    assert (ps + [p])[..|ps|] == ps;
  }

  lemma {:induction false} CliConcat(vips: set<string>, a: seq<Publication>, b: seq<Publication>)
    ensures CliRun(vips, a + b) == CliRun(CliRun(vips, a), b)
  {
    if b == [] {
      assert a + b == a;
    } else {
      var init, p := b[..|b| - 1], b[|b| - 1];
      CliConcat(vips, a, init);
      hide CliStep, CliRun;
      Last(b);
      Assoc(a, init, [p]);
      CliMore(vips, a + init, p);
      CliMore(CliRun(vips, a), init, p);
    }
  }

  ghost predicate IsClientTopic(p: Publication) {
    PREFIX <= p.topic
  }

  lemma VipOfTopic(topics: set<string>, vip: string)
    ensures vip in VipsOf(topics) <==> PREFIX + vip in topics
  {
    assert (PREFIX + vip)[|PREFIX|..] == vip;
    if vip in VipsOf(topics) {
      var topic :| topic in topics && PREFIX <= topic && topic[|PREFIX|..] == vip;
      assert topic == PREFIX + vip;
    }
  }

  /** The retained topics are the CLI's set, under their prefix, if they were so at the start. */
  lemma {:induction false} RetainedIsCliSet(before: set<string>, ps: seq<Publication>, vip: string)
    requires forall i :: 0 <= i < |ps| ==> IsClientTopic(ps[i])
    ensures PREFIX + vip in Retained(before, ps) <==> vip in CliRun(VipsOf(before), ps)
  {
    if ps == [] {
      VipOfTopic(before, vip);
    } else {
      RetainedIsCliSet(before, ps[..|ps| - 1], vip);
      var p := ps[|ps| - 1];
      assert IsClientTopic(p);
      assert p.topic == PREFIX + p.topic[|PREFIX|..];
      assert PREFIX + vip == p.topic <==> vip == p.topic[|PREFIX|..] by {
        assert (PREFIX + vip)[|PREFIX|..] == vip;
      }
    }
  }

  /** What a view started with stays in it until it is mentioned; for the rest the start does not matter. */
  lemma {:induction false} StaleUntilMentioned(vips: set<string>, ps: seq<Publication>)
    ensures CliRun(vips, ps) == CliRun({}, ps) + (vips - Mentioned(ps))
    ensures CliRun({}, ps) <= Mentioned(ps)
  {
    if ps != [] {
      StaleUntilMentioned(vips, ps[..|ps| - 1]);
    }
  }

  /** A publication says that an address came, or went, between two sets. */
  ghost predicate Tells(p: Publication, before: set<string>, after: set<string>) {
    IsClientTopic(p) &&
    var vip := p.topic[|PREFIX|..];
    || (p == Connected(vip) && vip in after && vip !in before)
    || (p == Disconnected(vip) && vip in before && vip !in after)
  }

  /** A change of membership, published one address at a time: each newcomer once, each address that left once,
      and nothing else. */
  ghost predicate Announces(ps: seq<Publication>, before: set<string>, after: set<string>) {
    && (forall p :: p in ps <==> Tells(p, before, after))
    && (forall i, j :: 0 <= i < j < |ps| ==> ps[i] != ps[j])
    && CliRun(before, ps) == after
  }

  lemma NothingToTell(before: set<string>)
    ensures Announces([], before, before)
  {
  }

  lemma TellsConnected(p: Publication, before: set<string>, after: set<string>, vip: string)
    requires vip !in before && vip !in after
    ensures Tells(p, before, after + {vip}) <==> Tells(p, before, after) || p == Connected(vip)
    ensures !Tells(Connected(vip), before, after)
  {
    assert Connected(vip).topic[|PREFIX|..] == vip;
    if IsClientTopic(p) {
      assert p.topic == PREFIX + p.topic[|PREFIX|..];
    }
  }

  lemma TellsDisconnected(p: Publication, before: set<string>, after: set<string>, vip: string)
    requires vip in before && vip in after
    ensures Tells(p, before, after - {vip}) <==> Tells(p, before, after) || p == Disconnected(vip)
    ensures !Tells(Disconnected(vip), before, after)
  {
    assert Disconnected(vip).topic[|PREFIX|..] == vip;
    if IsClientTopic(p) {
      assert p.topic == PREFIX + p.topic[|PREFIX|..];
    }
  }

  lemma AnnounceOneMore(ps: seq<Publication>, before: set<string>, after: set<string>, p: Publication,
                        after': set<string>)
    requires Announces(ps, before, after) && !Tells(p, before, after) && CliStep(after, p) == after'
    requires forall q :: Tells(q, before, after') <==> Tells(q, before, after) || q == p
    ensures Announces(ps + [p], before, after')
  {
    hide Tells, CliStep;
    CliMore(before, ps, p);
    assert forall q :: q in ps + [p] <==> q in ps || q == p;
  }

  lemma AnnounceConnected(ps: seq<Publication>, before: set<string>, after: set<string>, vip: string)
    requires Announces(ps, before, after) && vip !in before && vip !in after
    ensures Announces(ps + [Connected(vip)], before, after + {vip})
  {
    forall q {
      TellsConnected(q, before, after, vip);
    }
    TellsConnected(Connected(vip), before, after, vip);
    assert Connected(vip).topic[|PREFIX|..] == vip;
    assert CliStep(after, Connected(vip)) == after + {vip};
    hide Tells, Announces, CliStep;
    AnnounceOneMore(ps, before, after, Connected(vip), after + {vip});
  }

  lemma AnnounceDisconnected(ps: seq<Publication>, before: set<string>, after: set<string>, vip: string)
    requires Announces(ps, before, after) && vip in before && vip in after
    ensures Announces(ps + [Disconnected(vip)], before, after - {vip})
  {
    forall q {
      TellsDisconnected(q, before, after, vip);
    }
    TellsDisconnected(Disconnected(vip), before, after, vip);
    assert Disconnected(vip).topic[|PREFIX|..] == vip;
    assert CliStep(after, Disconnected(vip)) == after - {vip};
    hide Tells, Announces, CliStep;
    AnnounceOneMore(ps, before, after, Disconnected(vip), after - {vip});
  }

  /** The part of `openvpn_server` that follows the management interface. */
  class OpenvpnServer {
    const mqtt: bool                       // publications and per-client subscribers are enabled
    var mgmtBuf: string
    var inRoutingTable: bool
    var polledVips: set<string>
    var activeVips: set<string>
    var peers: set<string>                 // addresses with a subscriber
    var published: seq<Publication>
    ghost var received: string             // everything the management interface ever sent

    ghost function State(): Tracker
      reads this
    {
      Tracker(inRoutingTable, polledVips, activeVips)
    }

    /** Subscribers, publications and the CLI's view agree with the active set. */
    ghost predicate Agrees()
      reads this
    {
      if mqtt then
        peers == activeVips && CliRun({}, published) == activeVips &&
        forall i :: 0 <= i < |published| ==> IsClientTopic(published[i])
      else
        peers == {} && published == []
    }

    ghost predicate Valid()
      reads this
    {
      Agrees() && State() == FeedAll(EMPTY, Complete(received)) && mgmtBuf == Unfinished(received)
    }

    constructor (mqtt: bool)
      ensures Valid() && received == "" && this.mqtt == mqtt
    {
      this.mqtt := mqtt;
      mgmtBuf, inRoutingTable, polledVips, activeVips := "", false, {}, {};
      peers, published, received := {}, [], "";
    }

    method OnClientConnect(vip: string)
      modifies this`peers, this`published
      ensures mqtt && vip !in old(peers) ==>
                peers == old(peers) + {vip} && published == old(published) + [Connected(vip)]
      ensures !(mqtt && vip !in old(peers)) ==> peers == old(peers) && published == old(published)
    {
      if !mqtt || vip in peers {
        return;
      }
      peers := peers + {vip};
      published := published + [Publication("clients/" + vip, "connected")];
    }

    method OnClientDisconnect(vip: string)
      modifies this`peers, this`published
      ensures peers == old(peers) - {vip}
      ensures published == if mqtt then old(published) + [Disconnected(vip)] else old(published)
    {
      peers := peers - {vip};
      if mqtt {
        published := published + [Publication("clients/" + vip, "")];
      }
    }

    /** Where the first loop stands: `left` are the polled addresses it has not looked at. */
    ghost predicate Connecting(start: seq<Publication>, ps: seq<Publication>, left: set<string>)
      reads this
    {
      if mqtt then
        peers == activeVips + (polledVips - left) && published == start + ps && Announces(ps, activeVips, peers)
      else
        peers == {} && published == start
    }

    /** One turn of the first loop. */
    method ConnectIfNew(vip: string, ghost start: seq<Publication>, ghost before: seq<Publication>,
                        ghost left: set<string>)
      returns (ghost ps: seq<Publication>)
      requires left <= polledVips && vip in left && Connecting(start, before, left)
      modifies this`peers, this`published
      ensures Connecting(start, ps, left - {vip})
    {
      hide Announces;
      ps := before;
      ghost var was := peers;
      OneMore(activeVips, polledVips, left, vip);
      if vip !in activeVips {
        OnClientConnect(vip);
        if mqtt {
          AnnounceConnected(ps, activeVips, was, vip);
          ps := ps + [Connected(vip)];
        }
      }
    }

    /** New addresses, in whatever order the set is iterated. */
    method ConnectNew() returns (ghost ps: seq<Publication>)
      requires mqtt ==> peers == activeVips
      requires !mqtt ==> peers == {}
      modifies this`peers, this`published
      ensures Connecting(old(published), ps, {})
    {
      hide Announces;
      ps := [];
      NothingToTell(activeVips);
      assert activeVips + {} == activeVips && published + [] == published;
      var left := polledVips;
      while left != {}
        invariant left <= polledVips && Connecting(old(published), ps, left)
        decreases |left|
      {
        var vip :| vip in left;
        ps := ConnectIfNew(vip, old(published), ps, left);
        left := left - {vip};
      }
    }

    /** Where the second loop stands: `left` are the active addresses it has not looked at. */
    ghost predicate Disconnecting(start: seq<Publication>, ps: seq<Publication>, left: set<string>)
      reads this
    {
      if mqtt then
        peers == polledVips + left && published == start + ps && Announces(ps, activeVips, peers)
      else
        peers == {} && published == start
    }

    /** One turn of the second loop. */
    method DisconnectIfGone(vip: string, ghost start: seq<Publication>, ghost before: seq<Publication>,
                            ghost left: set<string>)
      returns (ghost ps: seq<Publication>)
      requires left <= activeVips && vip in left && Disconnecting(start, before, left)
      modifies this`peers, this`published
      ensures Disconnecting(start, ps, left - {vip})
    {
      hide Announces;
      ps := before;
      ghost var was := peers;
      OneLess(polledVips, left, vip);
      if vip !in polledVips {
        OnClientDisconnect(vip);
        if mqtt {
          AnnounceDisconnected(ps, activeVips, was, vip);
          ps := ps + [Disconnected(vip)];
        }
      }
    }

    /** Addresses that left. */
    method DisconnectGone(ghost start: seq<Publication>, ghost before: seq<Publication>)
      returns (ghost ps: seq<Publication>)
      requires Connecting(start, before, {})
      modifies this`peers, this`published
      ensures Disconnecting(start, ps, {})
    {
      hide Announces;
      ps := before;
      assert activeVips + (polledVips - {}) == polledVips + activeVips;
      var left := activeVips;
      while left != {}
        invariant left <= activeVips && Disconnecting(start, ps, left)
        decreases |left|
      {
        var vip :| vip in left;
        ps := DisconnectIfGone(vip, start, ps, left);
        left := left - {vip};
      }
    }

    /** The end of a table: the difference to the last one is acted on, and announced, exactly once. */
    method CompleteTable() returns (ghost ps: seq<Publication>)
      requires Agrees()
      modifies this
      ensures Agrees()
      ensures activeVips == polledVips == old(polledVips) && mgmtBuf == old(mgmtBuf) && received == old(received)
      ensures !inRoutingTable
      ensures mqtt ==> published == old(published) + ps && Announces(ps, old(activeVips), activeVips)
    {
      inRoutingTable := false;
      ghost var start := published;
      ps := ConnectNew();
      ps := DisconnectGone(start, ps);
      assert polledVips + {} == polledVips;
      ghost var was := activeVips;
      activeVips := polledVips;
      if mqtt {
        CliConcat({}, start, ps);
        assert forall p :: p in ps ==> Tells(p, was, activeVips);
        hide Announces, Tells;
        AnnouncedAreTopics(ps, was, activeVips);
      }
    }

    method ParseMgmtLine(line: string)
      requires Agrees() && line != ""
      modifies this
      ensures Agrees() && mgmtBuf == old(mgmtBuf) && received == old(received)
      ensures State() == TrackerStep(old(State()), line)
      ensures mqtt ==> exists ps :: published == old(published) + ps && Announces(ps, old(activeVips), activeVips)
    {
      ghost var ps: seq<Publication> := [];
      NothingToTell(activeVips);
      assert published == published + [];
      if ">LOG:" <= line {
        return;
      }
      if line == "ROUTING TABLE" {
        inRoutingTable := true;
        polledVips := {};
        return;
      }
      if line == "GLOBAL STATS" || line == "END" {
        if inRoutingTable {
          ps := CompleteTable();
        }
        return;
      }
      if inRoutingTable && line[0] != 'V' {
        var comma := IndexOf(line, ',');
        if comma != |line| {
          var vip := line[..comma];
          if '.' in vip {
            polledVips := polledVips + {vip};
          }
        }
      }
    }

    static method DropCarriageReturn(line: string) returns (trimmed: string)
      ensures trimmed == Trim(line)
    {
      trimmed := line;
      if trimmed != "" && trimmed[|trimmed| - 1] == '\r' {
        trimmed := trimmed[..|trimmed| - 1];
      }
    }

    /** The body of the reading loop: the line up to `pos` is parsed and leaves the buffer. */
    method ConsumeLine(pos: nat)
      requires Agrees() && pos < |mgmtBuf|
      modifies this
      ensures Agrees() && received == old(received) && mgmtBuf == old(mgmtBuf)[pos + 1..]
      ensures State() == Feed(old(State()), old(mgmtBuf)[..pos])
    {
      hide TrackerStep, Trim;
      var line := mgmtBuf[..pos];
      mgmtBuf := mgmtBuf[pos + 1..];
      line := DropCarriageReturn(line);
      if line != "" {
        ParseMgmtLine(line);
      }
    }

    /** Bytes from the management interface, cut anywhere. */
    method HandleRead(data: string)
      requires Valid()
      modifies this
      ensures Valid() && received == old(received) + data
    {
      CompleteAppend(received, data);
      ghost var lines := Complete(mgmtBuf + data);
      FeedAllConcat(EMPTY, Complete(received), lines);
      ghost var goal, tail := FeedAll(State(), lines), Unfinished(mgmtBuf + data);
      received := received + data;
      mgmtBuf := mgmtBuf + data;
      hide FeedAll, Complete, Unfinished, Agrees, IndexOf, TrackerStep, Trim;
      var pos := IndexOf(mgmtBuf, '\n');
      while pos != |mgmtBuf|
        invariant Agrees() && pos == IndexOf(mgmtBuf, '\n') && received == old(received) + data
        invariant FeedAll(State(), Complete(mgmtBuf)) == goal && Unfinished(mgmtBuf) == tail
        decreases |mgmtBuf|
      {
        TakeLine(State(), mgmtBuf);
        ConsumeLine(pos);
        pos := IndexOf(mgmtBuf, '\n');
      }
      NoMoreLines(State(), mgmtBuf);
    }
  }

  lemma OneMore(active: set<string>, polled: set<string>, left: set<string>, vip: string)
    requires left <= polled && vip in left
    ensures vip in active ==> active + (polled - (left - {vip})) == active + (polled - left)
    ensures active + (polled - (left - {vip})) == active + (polled - left) + {vip}
    ensures vip !in active ==> vip !in active + (polled - left)
  {
  }

  lemma OneLess(polled: set<string>, left: set<string>, vip: string)
    requires vip in left
    ensures vip in polled ==> polled + (left - {vip}) == polled + left
    ensures vip !in polled ==> polled + (left - {vip}) == polled + left - {vip}
  {
  }

  lemma AnnouncedAreTopics(ps: seq<Publication>, before: set<string>, after: set<string>)
    requires forall p :: p in ps ==> Tells(p, before, after)
    ensures forall i :: 0 <= i < |ps| ==> IsClientTopic(ps[i])
  {
    forall i | 0 <= i < |ps|
      ensures IsClientTopic(ps[i])
    {
      assert ps[i] in ps;
    }
  }

  /** One turn of the reading loop. */
  lemma TakeLine(t: Tracker, buf: string)
    requires IndexOf(buf, '\n') < |buf|
    ensures var pos := IndexOf(buf, '\n');
            FeedAll(t, Complete(buf)) == FeedAll(Feed(t, buf[..pos]), Complete(buf[pos + 1..])) &&
            Unfinished(buf) == Unfinished(buf[pos + 1..])
  {
    var pos := IndexOf(buf, '\n');
    var fields := Split(buf[pos + 1..], '\n');
    assert Split(buf, '\n') == [buf[..pos]] + fields;
    assert Complete(buf) == [buf[..pos]] + Complete(buf[pos + 1..]);
    assert Complete(buf)[1..] == Complete(buf[pos + 1..]);
  }

  lemma NoMoreLines(t: Tracker, buf: string)
    requires IndexOf(buf, '\n') == |buf|
    ensures FeedAll(t, Complete(buf)) == t && Unfinished(buf) == buf
  {
  }

  /** After any management byte stream, however cut: with MQTT on, the subscribers are the active addresses, which are
      the rows of the last completed table. A CLI that saw every publication, or that joined at any point and started
      from the retained topics, has the same set, and besides it the addresses that an earlier server left retained
      and that no table has mentioned since: so the views agree exactly when there are none of these. */
  lemma EveryoneAgrees(server: OpenvpnServer, before: set<string>, joined: nat)
    requires server.Valid() && server.mqtt && joined <= |server.published|
    ensures var lines := Lines(Complete(server.received));
            server.peers == server.activeVips == Track(EMPTY, lines).active &&
            (NoTable(lines) ==> server.activeVips == {}) &&
            (forall t: nat, e: nat :: LastTable(lines, t, e) ==> server.activeVips == Rows(lines, t + 1, e))
    ensures var view := CliRun(VipsOf(Retained(before, server.published[..joined])), server.published[joined..]);
            view == CliRun(VipsOf(before), server.published) == VipsOf(Retained(before, server.published)) &&
            view == server.activeVips + (VipsOf(before) - Mentioned(server.published)) &&
            (view == server.activeVips <==> VipsOf(before) <= Mentioned(server.published))
  {
    FeedAllTracks(Complete(server.received));
    TableOfServer(server);
    LateJoiner(before, server.published, joined);
    LateJoiner(before, server.published, |server.published|);
    assert server.published[..|server.published|] == server.published;
    assert server.published[|server.published|..] == [];
    StaleUntilMentioned(VipsOf(before), server.published);
  }

  lemma TableOfServer(server: OpenvpnServer)
    requires server.Valid()
    ensures var lines := Lines(Complete(server.received));
            (NoTable(lines) ==> server.activeVips == {}) &&
            (forall t: nat, e: nat :: LastTable(lines, t, e) ==> server.activeVips == Rows(lines, t + 1, e))
  {
    var lines := Lines(Complete(server.received));
    FeedAllTracks(Complete(server.received));
    if NoTable(lines) {
      NoTableNoActive(lines);
    }
    forall t: nat, e: nat | LastTable(lines, t, e)
      ensures server.activeVips == Rows(lines, t + 1, e)
    {
      ActiveIsLastTable(lines, t, e);
    }
  }

  lemma LateJoiner(before: set<string>, ps: seq<Publication>, joined: nat)
    requires joined <= |ps| && forall i :: 0 <= i < |ps| ==> IsClientTopic(ps[i])
    ensures CliRun(VipsOf(Retained(before, ps[..joined])), ps[joined..]) == CliRun(VipsOf(before), ps)
  {
    var early := ps[..joined];
    forall vip: string
      ensures vip in VipsOf(Retained(before, early)) <==> vip in CliRun(VipsOf(before), early)
    {
      VipOfTopic(Retained(before, early), vip);
      RetainedIsCliSet(before, early, vip);
    }
    assert VipsOf(Retained(before, early)) == CliRun(VipsOf(before), early);
    assert ps == early + ps[joined..];
    CliConcat(VipsOf(before), early, ps[joined..]);
  }

  /** A restart shows the difference: nothing was published yet, and the CLI still counts the old address. */
  lemma StaleTopicMisleads()
    ensures CliRun(VipsOf({PREFIX + "10.8.0.2"}), []) == {"10.8.0.2"} && CliRun(VipsOf({}), []) == {}
  {
    VipOfTopic({PREFIX + "10.8.0.2"}, "10.8.0.2");
    forall vip | vip in VipsOf({PREFIX + "10.8.0.2"})
      ensures vip == "10.8.0.2"
    {
      VipOfTopic({PREFIX + "10.8.0.2"}, vip);
      assert (PREFIX + vip)[|PREFIX|..] == vip && (PREFIX + "10.8.0.2")[|PREFIX|..] == "10.8.0.2";
    }
  }

  /** `routing_table_diff`, the copy of this logic in the shared header. */
  class RoutingTableDiff {
    var inTable: bool
    var polled: set<string>
    var active: set<string>

    ghost function State(): Tracker
      reads this
    {
      Tracker(inTable, polled, active)
    }

    constructor ()
      ensures State() == EMPTY
    {
      inTable, polled, active := false, {}, {};
    }

    /** Reports exactly the addresses that `parse_mgmt_line` connects and disconnects on the same line. */
    method Feed(line: string) returns (connected: seq<string>, disconnected: seq<string>)
      modifies this
      ensures State() == TrackerStep(old(State()), line)
      ensures Lists(connected, active - old(active))
      ensures Lists(disconnected, old(active) - active)
    {
      connected, disconnected := [], [];
      if ">LOG:" <= line {
        return;
      }
      if line == "ROUTING TABLE" {
        inTable := true;
        polled := {};
        return;
      }
      if line == "GLOBAL STATS" || line == "END" {
        if inTable {
          inTable := false;
          connected := Missing(polled, active);
          disconnected := Missing(active, polled);
          active := polled;
        }
        return;
      }
      if inTable {
        var vip := ParseRoutingRow(line);
        if vip != "" {
          polled := polled + {vip};
        }
      }
    }
  }

  /** A sequence that lists a set, each member once. */
  ghost predicate Lists(xs: seq<string>, s: set<string>) {
    (forall x :: x in xs <==> x in s) && forall i, j :: 0 <= i < j < |xs| ==> xs[i] != xs[j]
  }

  lemma ListMore(xs: seq<string>, s: set<string>, x: string)
    requires Lists(xs, s) && x !in s
    ensures Lists(xs + [x], s + {x})
  {
    assert forall y :: y in xs + [x] <==> y in xs || y == x;
  }

  /** The members of `s` that `t` lacks, in some order. */
  method Missing(s: set<string>, t: set<string>) returns (xs: seq<string>)
    ensures Lists(xs, s - t)
  {
    xs := [];
    var left := s;
    while left != {}
      invariant left <= s && Lists(xs, s - left - t)
      decreases |left|
    {
      var x :| x in left;
      ghost var listed := s - left - t;
      left := left - {x};
      if x !in t {
        assert s - left - t == listed + {x};
        ListMore(xs, listed, x);
        xs := xs + [x];
      } else {
        assert s - left - t == listed;
      }
    }
  }
}
