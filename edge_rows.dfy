/** The per-placemark loop of `dist_gen.py` (lines 15-37): for every placemark
    in document order, skip it when it has no LineString coordinates, otherwise
    route its first and last coordinate through OSRM and append one row
    `{edge_name, distance_m, duration_s}` to `rows`. Every failure on the way
    is an uncaught exception, so it ends the whole run.

    The KML parser and the HTTP client are outside the model: placemarks arrive
    as values, and the OSRM server is a function from request URL to reply. */
module EdgeRows {
  import opened Outcomes
  import opened PyText
  import opened Coordinates

  /** The `<name>` child of a placemark: absent, or present with a text that
      the XML parser gives as None when the element is empty. */
  datatype NameElement = NoName | Name(text: Option<string>)

  /** The `LineString/coordinates` element of a placemark: absent, or present
      with a text that the XML parser gives as None when the element is empty. */
  datatype LineElement = NoLine | Line(text: Option<string>)

  /** One `<Placemark>`: its name element and its coordinates element. */
  datatype Placemark = Placemark(name: NameElement, line: LineElement)

  /** `routes[0].legs[0]` of an OSRM reply: its `distance` in metres and its
      `duration` in seconds, each None when the JSON object lacks that key. */
  datatype Leg = Leg(distance: Option<real>, duration: Option<real>)

  /** A leg that has both keys the row reads. */
  predicate LegComplete(leg: Leg)
  {
    leg.distance.Some? && leg.duration.Some?
  }

  /** What the server does with one request: the request raises (no reply), or
      a reply with an HTTP status and, when its JSON body has one, the first leg
      of the first route. */
  datatype Reply = NoReply | Reply(status: int, leg: Option<Leg>)

  /** One element of `rows`. */
  datatype Row = Row(edgeName: string, distanceM: real, durationS: real)

  /** What one pass of the loop body does with one placemark. */
  datatype Step = Skip | Emit(row: Row) | Abort(fault: Fault)

  /** The statuses for which `raise_for_status()` raises: 4xx and 5xx. */
  predicate IsHttpError(status: int)
  {
    400 <= status < 600
  }

  /** Lines 28-30: send the request, check the status, take the first leg. */
  function Fetch(server: string -> Reply, url: string): (r: Result<Leg>)
    ensures r.Ok? <==> server(url).Reply? && !IsHttpError(server(url).status) && server(url).leg.Some?
    ensures r.Ok? ==> r.value == server(url).leg.value
    ensures server(url).NoReply? ==> r == Err(ConnectionFailed)
    ensures server(url).Reply? && IsHttpError(server(url).status) ==> r == Err(HttpStatus(server(url).status))
    ensures server(url).Reply? && !IsHttpError(server(url).status) && server(url).leg.None? ==> r == Err(NoRouteLeg)
  {
    match server(url)
    case NoReply => Err(ConnectionFailed)
    case Reply(status, leg) =>
      if IsHttpError(status) then Err(HttpStatus(status))
      else if leg.None? then Err(NoRouteLeg)
      else Ok(leg.value)
  }

  /** Line 33: `pm.find('kml:name', ns).text or ''`. A missing element raises
      AttributeError; an empty or absent text gives the empty name. */
  function EdgeName(name: NameElement): (r: Result<string>)
    ensures r.Err? <==> name.NoName?
    ensures r.Err? ==> r.fault == NoNameElement
    ensures r.Ok? ==> (r.value == [] <==> name.text.None? || name.text.value == [])
    ensures r.Ok? && r.value != [] ==> name.text == Some(r.value)
  {
    match name
    case NoName => Err(NoNameElement)
    case Name(text) => Ok(text.GetOr([]))
  }

  /** Lines 28-36 for a placemark whose URL is built: fetch the leg, then build
      the row dictionary in its written order (name, distance, duration). */
  function FetchRow(name: NameElement, server: string -> Reply, url: string): (s: Step)
    ensures s.Emit? <==> Fetch(server, url).Ok? && name.Name? && LegComplete(Fetch(server, url).value)
    ensures s.Emit? ==>
      s.row == Row(name.text.GetOr([]), Fetch(server, url).value.distance.value, Fetch(server, url).value.duration.value)
    ensures Fetch(server, url).Err? ==> s == Abort(Fetch(server, url).fault)
    ensures Fetch(server, url).Ok? && name.NoName? ==> s == Abort(NoNameElement)
    ensures Fetch(server, url).Ok? && name.Name? && !LegComplete(Fetch(server, url).value) ==> s == Abort(NoLegField)
  {
    match Fetch(server, url)
    case Err(f) => Abort(f)
    case Ok(leg) =>
      match EdgeName(name)
      case Err(f) => Abort(f)
      case Ok(edgeName) =>
        if !LegComplete(leg) then Abort(NoLegField)
        else Emit(Row(edgeName, leg.distance.value, leg.duration.value))
  }

  /** The loop body (lines 17-36) applied to one placemark, as a function: only
      a placemark without a coordinates element is skipped, and a row carries
      the text of the name element, or the empty name when that text is empty
      or absent. */
  function StepOf(pm: Placemark, server: string -> Reply): (s: Step)
    ensures s.Skip? <==> pm.line.NoLine?
    ensures s.Emit? ==> pm.name.Name? && s.row.edgeName == pm.name.text.GetOr([])
  {
    match pm.line
    case NoLine => Skip
    case Line(None) => Abort(NoCoordinateText)
    case Line(Some(text)) =>
      LineStep(pm.name, text, server)
  }

  /** Lines 20-36 for a placemark whose coordinates element has a text. */
  function LineStep(name: NameElement, text: string, server: string -> Reply): Step
  {
    match Endpoints(ParseCoordinates(text))
    case Err(f) => Abort(f)
    case Ok(ends) =>
      match RouteUrl(ends.0, ends.1)
      case Err(f) => Abort(f)
      case Ok(url) => FetchRow(name, server, url)
  }

  /** The step of every placemark, in document order. */
  function Steps(pms: seq<Placemark>, server: string -> Reply): (steps: seq<Step>)
    ensures |steps| == |pms|
  {
    if pms == [] then [] else [StepOf(pms[0], server)] + Steps(pms[1..], server)
  }

  /** The rows a sequence of steps adds, in order: one per emitting step. */
  function RowsOf(steps: seq<Step>): (rows: seq<Row>)
    ensures |rows| <= |steps|
  {
    if steps == [] then []
    else (if steps[0].Emit? then [steps[0].row] else []) + RowsOf(steps[1..])
  }

  /** The index of the first step that aborts the run, or the number of steps
      when none does. */
  function FirstAbort(steps: seq<Step>): (k: nat)
    ensures k <= |steps|
    ensures k < |steps| ==> steps[k].Abort?
  {
    if steps == [] then 0
    else if steps[0].Abort? then 0
    else 1 + FirstAbort(steps[1..])
  }

  /** The number of placemarks that have a LineString coordinates element. */
  function LineCount(pms: seq<Placemark>): nat
  {
    if pms == [] then 0
    else (if pms[0].line.Line? then 1 else 0) + LineCount(pms[1..])
  }

  /** How the loop ends: with all its rows, or with the exception that stopped
      it and the rows collected before it. */
  datatype RunOutcome = Completed(rows: seq<Row>) | Aborted(fault: Fault, rows: seq<Row>)

  /** Lines 20-36 for a placemark that has LineString coordinates: parse the
      coordinates, pick origin and destination, build the URL, fetch the leg,
      read the name and the leg's two fields. The first of these that raises
      ends the run with its fault; otherwise the placemark adds one row.

      This is the staged, statement-by-statement form of the loop body that
      `CollectRows` runs; `StepOf` is the same body as one expression, and
      the postcondition says the two agree. */
  method RouteRow(pm: Placemark, server: string -> Reply) returns (step: Step)
    requires pm.line.Line?
    ensures step == StepOf(pm, server)
    ensures !step.Skip?
  {
    if pm.line.text.None? {
      return Abort(NoCoordinateText);
    }
    var ends := Endpoints(ParseCoordinates(pm.line.text.value));
    if ends.Err? {
      return Abort(ends.fault);
    }
    var url := RouteUrl(ends.value.0, ends.value.1);
    if url.Err? {
      return Abort(url.fault);
    }
    var leg := Fetch(server, url.value);
    if leg.Err? {
      return Abort(leg.fault);
    }
    var name := EdgeName(pm.name);
    if name.Err? {
      return Abort(name.fault);
    }
    if leg.value.distance.None? || leg.value.duration.None? {
      return Abort(NoLegField);
    }
    step := Emit(Row(name.value, leg.value.distance.value, leg.value.duration.value));
  }

  /** The loop of lines 15-37. It completes with the rows of every placemark
      when no step fails; otherwise it stops at the first failing placemark,
      having added exactly the rows of the placemarks before it. */
  method CollectRows(placemarks: seq<Placemark>, server: string -> Reply) returns (outcome: RunOutcome)
    ensures var steps := Steps(placemarks, server);
      var k := FirstAbort(steps);
      if k == |steps| then outcome == Completed(RowsOf(steps))
      else outcome == Aborted(steps[k].fault, RowsOf(steps[..k]))
  {
    ghost var steps := Steps(placemarks, server);
    var rows: seq<Row> := [];
    var i := 0;
    while i < |placemarks|
      invariant 0 <= i <= |placemarks|
      invariant i <= FirstAbort(steps)
      invariant rows == RowsOf(steps[..i])
    {
      var pm := placemarks[i];
      StepsAt(placemarks, server, i);
      FirstAbortAt(steps, i);
      RowsGrow(steps, i);
      if pm.line.NoLine? {
        i := i + 1;
        continue;
      }
      var step := RouteRow(pm, server);
      if step.Abort? {
        return Aborted(step.fault, rows);
      }
      rows := rows + [step.row];
      i := i + 1;
    }
    assert steps[..i] == steps;
    outcome := Completed(rows);
  }

  // ---------------------------------------------------------------------
  // Lemmas

  /** The step at an index is the step of the placemark at that index. */
  lemma {:induction false} StepsAt(pms: seq<Placemark>, server: string -> Reply, i: nat)
    requires i < |pms|
    ensures Steps(pms, server)[i] == StepOf(pms[i], server)
    decreases i
  {
    if i > 0 {
      StepsAt(pms[1..], server, i - 1);
    }
  }

  /** The rows of two runs of steps, one after the other, are the rows of the
      first followed by those of the second: appending never reorders or
      changes a row already collected. */
  lemma {:induction false} RowsOfAppend(a: seq<Step>, b: seq<Step>)
    ensures RowsOf(a + b) == RowsOf(a) + RowsOf(b)
    decreases |a|
  {
    if a == [] {
      assert a + b == b;
    } else {
      assert (a + b)[0] == a[0] && (a + b)[1..] == a[1..] + b;
      RowsOfAppend(a[1..], b);
    }
  }

  /** The rows are exactly the rows of the emitting steps: every row comes
      from an emitting step, and every emitting step's row is among them. */
  lemma {:induction false} RowsOfEmitted(steps: seq<Step>)
    ensures forall k :: 0 <= k < |RowsOf(steps)| ==> Emit(RowsOf(steps)[k]) in steps
    ensures forall j :: 0 <= j < |steps| && steps[j].Emit? ==> steps[j].row in RowsOf(steps)
    decreases |steps|
  {
    if steps != [] {
      RowsOfEmitted(steps[1..]);
      var head := if steps[0].Emit? then [steps[0].row] else [];
      var rest := RowsOf(steps[1..]);
      assert RowsOf(steps) == head + rest;
      forall k | 0 <= k < |RowsOf(steps)|
        ensures Emit(RowsOf(steps)[k]) in steps
      {
        if k >= |head| {
          assert RowsOf(steps)[k] == rest[k - |head|];
          assert Emit(rest[k - |head|]) in steps[1..];
        }
      }
      forall j | 0 <= j < |steps| && steps[j].Emit?
        ensures steps[j].row in RowsOf(steps)
      {
        if j > 0 {
          assert steps[1..][j - 1] == steps[j];
        }
      }
    }
  }

  /** No step before the first abort aborts. */
  lemma {:induction false} FirstAbortIsFirst(steps: seq<Step>)
    ensures forall j :: 0 <= j < FirstAbort(steps) ==> !steps[j].Abort?
    decreases |steps|
  {
    if steps != [] && !steps[0].Abort? {
      FirstAbortIsFirst(steps[1..]);
      forall j | 0 <= j < FirstAbort(steps)
        ensures !steps[j].Abort?
      {
        if j > 0 {
          assert steps[j] == steps[1..][j - 1];
        }
      }
    }
  }

  /** Up to the first abort, a step aborts exactly when it is the first abort. */
  lemma {:induction false} FirstAbortAt(steps: seq<Step>, i: nat)
    requires i < |steps| && i <= FirstAbort(steps)
    ensures steps[i].Abort? <==> FirstAbort(steps) == i
    decreases i
  {
    if i > 0 {
      FirstAbortAt(steps[1..], i - 1);
    }
  }

  /** One more pass of the loop adds the row of its step, if any, to the
      rows collected so far. */
  lemma RowsGrow(steps: seq<Step>, i: nat)
    requires i < |steps|
    ensures RowsOf(steps[..i + 1]) == RowsOf(steps[..i]) + (if steps[i].Emit? then [steps[i].row] else [])
  {
    assert steps[..i + 1] == steps[..i] + [steps[i]];
    RowsOfAppend(steps[..i], [steps[i]]);
  }

  /** When no step fails, every placemark with LineString coordinates adds
      exactly one row and every other placemark adds none. */
  lemma {:induction false} CompletedRowCount(pms: seq<Placemark>, server: string -> Reply)
    requires FirstAbort(Steps(pms, server)) == |pms|
    ensures |RowsOf(Steps(pms, server))| == LineCount(pms)
    decreases |pms|
  {
    if pms != [] {
      var steps := Steps(pms, server);
      assert steps[1..] == Steps(pms[1..], server);
      assert !steps[0].Abort?;
      CompletedRowCount(pms[1..], server);
    }
  }

  /** A coordinates element without a token aborts the run: with no text at
      all `strip()` is called on None, and with only whitespace `coords[0]` is
      taken from an empty list. */
  lemma AbortsWithoutToken(pm: Placemark, server: string -> Reply)
    requires pm.line.Line?
    requires pm.line.text.None? || Split(pm.line.text.value) == []
    ensures StepOf(pm, server) == Abort(if pm.line.text.None? then NoCoordinateText else NoCoordinates)
  {
    if pm.line.text.Some? {
      CoordinatesPerToken(pm.line.text.value);
      assert ParseCoordinates(pm.line.text.value) == [];
    }
  }

  /** A placemark whose first and last tokens both have a longitude and a
      latitude is routed from its first to its last coordinate: its step
      fetches the URL built from those two tokens, and what it adds depends
      only on the reply to that URL and on its name element. */
  lemma StepRoutesFirstToLast(pm: Placemark, server: string -> Reply)
    requires pm.line.Line? && pm.line.text.Some?
    requires var ts := Split(pm.line.text.value);
      && ts != []
      && |SplitOn(ts[0], ',')| >= 2
      && |SplitOn(ts[|ts| - 1], ',')| >= 2
    ensures var ts := Split(pm.line.text.value);
      var url := RouteUrl(ParseCoord(ts[0]), ParseCoord(ts[|ts| - 1]));
      url.Ok? && StepOf(pm, server) == FetchRow(pm.name, server, url.value)
  {
    var text := pm.line.text.value;
    var ts := Split(text);
    EndpointsOfText(text);
    LongTokensGiveUrl(ts[0], ts[|ts| - 1]);
    StepAfterEndpoints(pm, server, ParseCoord(ts[0]), ParseCoord(ts[|ts| - 1]));
  }

  /** A routing call that raises, a reply with a 4xx or 5xx status, or a reply
      without a route leg aborts the run at that placemark instead of skipping
      its edge. */
  lemma RoutingFailureAborts(pm: Placemark, server: string -> Reply)
    requires pm.line.Line? && pm.line.text.Some?
    requires var ts := Split(pm.line.text.value);
      && ts != []
      && |SplitOn(ts[0], ',')| >= 2
      && |SplitOn(ts[|ts| - 1], ',')| >= 2
    ensures var ts := Split(pm.line.text.value);
      var reply := server(RouteUrl(ParseCoord(ts[0]), ParseCoord(ts[|ts| - 1])).value);
      && (reply.NoReply? ==> StepOf(pm, server) == Abort(ConnectionFailed))
      && (reply.Reply? && IsHttpError(reply.status) ==> StepOf(pm, server) == Abort(HttpStatus(reply.status)))
      && (reply.Reply? && !IsHttpError(reply.status) && reply.leg.None? ==> StepOf(pm, server) == Abort(NoRouteLeg))
  {
    StepRoutesFirstToLast(pm, server);
  }

  lemma StepAfterEndpoints(pm: Placemark, server: string -> Reply, origin: Coord, dest: Coord)
    requires pm.line.Line? && pm.line.text.Some?
    requires Endpoints(ParseCoordinates(pm.line.text.value)) == Ok((origin, dest))
    requires RouteUrl(origin, dest).Ok?
    ensures StepOf(pm, server) == FetchRow(pm.name, server, RouteUrl(origin, dest).value)
  {
  }

  /** A first or last token without a comma gives a 1-tuple, and building the
      URL then aborts the run. */
  lemma StepAbortsOnOneField(pm: Placemark, server: string -> Reply)
    requires pm.line.Line? && pm.line.text.Some?
    requires var ts := Split(pm.line.text.value);
      && ts != []
      && (|SplitOn(ts[0], ',')| < 2 || |SplitOn(ts[|ts| - 1], ',')| < 2)
    ensures StepOf(pm, server) == Abort(MissingLongitude)
  {
    var ts := Split(pm.line.text.value);
    var origin, dest := ParseCoord(ts[0]), ParseCoord(ts[|ts| - 1]);
    EndpointsOfText(pm.line.text.value);
    ParseCoordFields(ts[0]);
    ParseCoordFields(ts[|ts| - 1]);
    assert |origin| < 2 || |dest| < 2;
    StepFailsAfterEndpoints(pm, server, origin, dest);
  }

  lemma StepFailsAfterEndpoints(pm: Placemark, server: string -> Reply, origin: Coord, dest: Coord)
    requires pm.line.Line? && pm.line.text.Some?
    requires Endpoints(ParseCoordinates(pm.line.text.value)) == Ok((origin, dest))
    requires |origin| < 2 || |dest| < 2
    ensures StepOf(pm, server) == Abort(MissingLongitude)
  {
  }
}
