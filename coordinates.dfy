/** The coordinate handling of one placemark in `dist_gen.py`: the list
    comprehension over the `<coordinates>` text, the choice of origin and
    destination, and the OSRM route URL built from them.

    A `<coordinates>` text (kml:coordinates in OGC KML 2.2) is a sequence of
    whitespace-separated `lon,lat[,alt]` tuples. The script stores each one as
    `(lat, lon)` and swaps the pair back when it writes the URL. */
module Coordinates {
  import opened Outcomes
  import opened PyText

  /** The Python tuple `tuple(map(float, token.split(',')[:2][::-1]))`: the first
      two comma-separated fields of a token in reversed order, so `(lat, lon)`
      for a `lon,lat[,alt]` token, or a 1-tuple for a token without a comma.
      The fields are kept as text. */
  type Coord = seq<string>

  /** `s[::-1]`. */
  function Reversed<T>(s: seq<T>): (r: seq<T>)
    ensures |r| == |s|
    ensures forall k :: 0 <= k < |s| ==> r[k] == s[|s| - 1 - k]
  {
    if s == [] then [] else Reversed(s[1..]) + [s[0]]
  }

  /** The coordinate of one token (dist_gen.py line 21): a pair, or a 1-tuple
      for a token without a comma. `ParseCoordFields` says which fields. */
  function ParseCoord(token: string): (c: Coord)
    ensures 1 <= |c| <= 2
  {
    var fs := SplitOn(token, ',');
    Reversed(fs[..if |fs| < 2 then |fs| else 2])
  }

  /** The list `coords` of one `<coordinates>` text (dist_gen.py lines 20-23):
      one coordinate per token of the stripped text, in order. */
  function ParseCoordinates(text: string): (cs: seq<Coord>)
    ensures |cs| == |Split(Strip(text))|
    ensures forall k :: 0 <= k < |cs| ==> cs[k] == ParseCoord(Split(Strip(text))[k])
  {
    ParseTokens(Split(Strip(text)))
  }

  /** `[tuple(...) for c in tokens]`: one coordinate per token, in order. */
  function ParseTokens(tokens: seq<string>): (cs: seq<Coord>)
    ensures |cs| == |tokens|
    ensures forall k :: 0 <= k < |cs| ==> cs[k] == ParseCoord(tokens[k])
  {
    if tokens == [] then [] else [ParseCoord(tokens[0])] + ParseTokens(tokens[1..])
  }

  /** `origin, dest = coords[0], coords[-1]` (dist_gen.py line 24): an empty
      list raises IndexError. */
  function Endpoints(coords: seq<Coord>): (r: Result<(Coord, Coord)>)
    ensures r.Err? <==> coords == []
    ensures r.Err? ==> r.fault == NoCoordinates
    ensures r.Ok? ==> r.value.0 == coords[0] && r.value.1 == coords[|coords| - 1]
    ensures r.Ok? && |coords| == 1 ==> r.value.0 == r.value.1
  {
    if coords == [] then Err(NoCoordinates) else Ok((coords[0], coords[|coords| - 1]))
  }

  /** `{origin[1]},{origin[0]};{dest[1]},{dest[0]}`, the endpoint part of the
      route URL (dist_gen.py line 27): each pair is swapped back to `lon,lat`.
      A 1-tuple has no index 1, which raises IndexError. */
  function RoutePath(origin: Coord, dest: Coord): (r: Result<string>)
    ensures r.Err? <==> |origin| < 2 || |dest| < 2
    ensures r.Err? ==> r.fault == MissingLongitude
  {
    if |origin| < 2 || |dest| < 2 then Err(MissingLongitude)
    else Ok(origin[1] + "," + origin[0] + ";" + dest[1] + "," + dest[0])
  }

  const OsrmRoute := "http://router.project-osrm.org/route/v1/driving/"
  const RouteOptions := "?overview=false"

  /** The whole OSRM request URL of dist_gen.py line 27. */
  function RouteUrl(origin: Coord, dest: Coord): (r: Result<string>)
    ensures r.Err? <==> RoutePath(origin, dest).Err?
    ensures r.Err? ==> r.fault == MissingLongitude
    ensures r.Ok? ==> r.value == OsrmRoute + RoutePath(origin, dest).value + RouteOptions
  {
    match RoutePath(origin, dest)
    case Err(f) => Err(f)
    case Ok(path) => Ok(OsrmRoute + path + RouteOptions)
  }

  // ---------------------------------------------------------------------
  // Lemmas

  /** A token with at least two comma-separated fields gives the pair of its
      second and first field, `(lat, lon)`: a third field (the altitude) and
      any later one are dropped. A token without a comma gives the 1-tuple of
      the whole token. */
  lemma ParseCoordFields(token: string)
    ensures var fs := SplitOn(token, ',');
      && |ParseCoord(token)| == (if |fs| >= 2 then 2 else 1)
      && (|fs| >= 2 ==> ParseCoord(token) == [fs[1], fs[0]])
      && (|fs| == 1 ==> ParseCoord(token) == [token])
  {
    JoinSplitOn(token, ',');
  }

  /** A token `f0,f1[,...]` yields the coordinate `(f1, f0)`, whatever follows
      the second field. */
  lemma TupleOfFields(fs: seq<string>)
    requires |fs| >= 2
    requires forall k :: 0 <= k < |fs| ==> ',' !in fs[k]
    ensures ParseCoord(JoinOn(fs, ',')) == [fs[1], fs[0]]
  {
    SplitOnJoin(fs, ',');
    ParseCoordFields(JoinOn(fs, ','));
  }

  /** Swapping a stored `(lat, lon)` back gives the token's first two fields in
      their source order, so the two reversals cancel. */
  lemma SwapBackRestoresFields(token: string)
    requires |SplitOn(token, ',')| >= 2
    ensures var c := ParseCoord(token);
      |c| == 2 && [c[1], c[0]] == SplitOn(token, ',')[..2]
  {
    ParseCoordFields(token);
  }

  /** Two fields joined on a separator are the first, the separator and the
      second. */
  lemma JoinPair(a: string, b: string, sep: char)
    ensures JoinOn([a, b], sep) == a + [sep] + b
  {
    assert [a, b][1..] == [b];
  }

  /** The two endpoint parts of a route path, split on `;` and then on `,`,
      give back each coordinate with its pair swapped back. */
  lemma RoutePathFields(origin: Coord, dest: Coord)
    requires |origin| == 2 && |dest| == 2
    requires forall k :: 0 <= k < 2 ==> ',' !in origin[k] && ';' !in origin[k]
    requires forall k :: 0 <= k < 2 ==> ',' !in dest[k] && ';' !in dest[k]
    ensures RoutePath(origin, dest).Ok?
    ensures var parts := SplitOn(RoutePath(origin, dest).value, ';');
      && parts == [JoinOn([origin[1], origin[0]], ','), JoinOn([dest[1], dest[0]], ',')]
      && SplitOn(parts[0], ',') == [origin[1], origin[0]]
      && SplitOn(parts[1], ',') == [dest[1], dest[0]]
  {
    var o := JoinOn([origin[1], origin[0]], ',');
    var d := JoinOn([dest[1], dest[0]], ',');
    JoinPair(origin[1], origin[0], ',');
    JoinPair(dest[1], dest[0], ',');
    JoinPair(o, d, ';');
    assert RoutePath(origin, dest).value == o + [';'] + d by {
      var x := origin[1] + "," + origin[0] + ";";
      assert x + dest[1] + "," + dest[0] == x + (dest[1] + "," + dest[0]);
    }
    assert ';' !in o && ';' !in d;
    SplitOnJoin([o, d], ';');
    SplitOnJoin([origin[1], origin[0]], ',');
    SplitOnJoin([dest[1], dest[0]], ',');
  }

  /** The route path from a first and a last token lists both in their own
      axis order: splitting the path on `;` and `,` gives the first two fields
      of each token. A token of exactly two fields appears in the path as it is.
      Only the two fields that reach the path must be free of `;`. */
  lemma RouteKeepsTokenAxisOrder(first: string, last: string)
    requires |SplitOn(first, ',')| >= 2 && |SplitOn(last, ',')| >= 2
    requires forall k :: 0 <= k < 2 ==> ';' !in SplitOn(first, ',')[k] && ';' !in SplitOn(last, ',')[k]
    ensures RoutePath(ParseCoord(first), ParseCoord(last)).Ok?
    ensures var parts := SplitOn(RoutePath(ParseCoord(first), ParseCoord(last)).value, ';');
      && |parts| == 2
      && SplitOn(parts[0], ',') == SplitOn(first, ',')[..2]
      && SplitOn(parts[1], ',') == SplitOn(last, ',')[..2]
      && (|SplitOn(first, ',')| == 2 ==> parts[0] == first)
      && (|SplitOn(last, ',')| == 2 ==> parts[1] == last)
  {
    var fs, gs := SplitOn(first, ','), SplitOn(last, ',');
    ParseCoordFields(first);
    ParseCoordFields(last);
    RoutePathFields(ParseCoord(first), ParseCoord(last));
    assert fs[..2] == [fs[0], fs[1]] && gs[..2] == [gs[0], gs[1]];
    if |fs| == 2 {
      JoinSplitOn(first, ',');
      assert fs == [fs[0], fs[1]];
    }
    if |gs| == 2 {
      JoinSplitOn(last, ',');
      assert gs == [gs[0], gs[1]];
    }
  }

  /** Two tokens that both hold a comma give a route URL. */
  lemma LongTokensGiveUrl(first: string, last: string)
    requires |SplitOn(first, ',')| >= 2 && |SplitOn(last, ',')| >= 2
    ensures RouteUrl(ParseCoord(first), ParseCoord(last)).Ok?
  {
    ParseCoordFields(first);
    ParseCoordFields(last);
  }

  /** The `strip()` before `split()` makes no difference: there is one
      coordinate per whitespace-separated token of the text itself. */
  lemma CoordinatesPerToken(text: string)
    ensures var cs := ParseCoordinates(text);
      && |cs| == |Split(text)|
      && forall k :: 0 <= k < |cs| ==> cs[k] == ParseCoord(Split(text)[k])
  {
    SplitIgnoresStrip(text);
  }

  /** For a whole coordinate text, origin and destination are the coordinates
      of its first and last whitespace-separated tokens; with a single token
      they are the same. */
  lemma EndpointsOfText(text: string)
    requires Split(text) != []
    ensures var ts := Split(text);
      Endpoints(ParseCoordinates(text)) == Ok((ParseCoord(ts[0]), ParseCoord(ts[|ts| - 1])))
  {
    var ts := Split(text);
    var cs := ParseCoordinates(text);
    CoordinatesPerToken(text);
    assert cs[0] == ParseCoord(ts[0]);
    assert cs[|cs| - 1] == ParseCoord(ts[|ts| - 1]);
  }
}
