/** subset_by_state.py: keep the Google Location History records with at
    least one `geo:lat,lon` point inside one US state.

    Latitudes and longitudes stay the decimal texts the pattern matched;
    the state's shape and the point-in-polygon test are the parameter
    `contains`, called as `contains(state, x, y)` with `x` the longitude and
    `y` the latitude, as shapely's `Point(lon, lat)` orders them. */
module ByState {
  import opened Wrappers
  import opened Text
  import opened Json
  import opened ObjectScanner

  // ---------------------------------------------------------------------
  // parse_geo
  // ---------------------------------------------------------------------

  /** A matched point: the two decimal texts, latitude first. */
  datatype Point = Point(lat: string, lon: string)

  /** One or more decimal digits (the pattern's `\d+`, which matches any
      Unicode decimal digit, not only ASCII ones). */
  predicate Digits(x: string)
    decreases |x|
  {
    x != [] && IsDecimalDigit(x[0]) && (|x| == 1 || Digits(x[1..]))
  }

  lemma {:induction false} DigitsAreDecimal(x: string)
    requires Digits(x)
    ensures forall i :: 0 <= i < |x| ==> IsDecimalDigit(x[i])
    decreases |x|
  {
    if |x| > 1 {
      DigitsAreDecimal(x[1..]);
      assert forall i :: 1 <= i < |x| ==> x[i] == x[1..][i - 1];
    }
  }

  function Unsigned(t: string): string {
    if t != [] && (t[0] == '-' || t[0] == '+') then t[1..] else t
  }

  /** The pattern's number: an optional sign, digits, and optionally a
      point followed by more digits. */
  predicate Decimal(t: string) {
    var b := Unsigned(t);
    Digits(b) || exists k | 0 < k < |b| :: b[k] == '.' && Digits(b[..k]) && Digits(b[k + 1..])
  }

  predicate NumberChar(c: char) {
    IsDecimalDigit(c) || c == '.' || c == '+' || c == '-'
  }

  lemma DigitsAreNumberChars(x: string)
    requires Digits(x)
    ensures forall i :: 0 <= i < |x| ==> NumberChar(x[i])
  {
    DigitsAreDecimal(x);
  }

  /** Digits, a point and digits are all number characters. */
  lemma PointedIsNumberChars(b: string, k: nat)
    requires 0 < k < |b| && b[k] == '.' && Digits(b[..k]) && Digits(b[k + 1..])
    ensures forall i :: 0 <= i < |b| ==> NumberChar(b[i])
  {
    var front, back := b[..k], b[k + 1..];
    DigitsAreNumberChars(front);
    DigitsAreNumberChars(back);
    forall i | 0 <= i < |b|
      ensures NumberChar(b[i])
    {
      if i < k {
        assert b[i] == front[i];
      } else if i > k {
        assert b[i] == back[i - k - 1];
      }
    }
  }

  lemma {:induction false} DecimalIsNumberChars(t: string)
    requires Decimal(t)
    ensures t != [] && forall i :: 0 <= i < |t| ==> NumberChar(t[i])
  {
    var b := Unsigned(t);
    var off := |t| - |b|;
    assert b == t[off..];
    if Digits(b) {
      DigitsAreNumberChars(b);
    } else {
      var k :| 0 < k < |b| && b[k] == '.' && Digits(b[..k]) && Digits(b[k + 1..]);
      PointedIsNumberChars(b, k);
    }
    forall i | 0 <= i < |t|
      ensures NumberChar(t[i])
    {
      if i >= off {
        assert t[i] == b[i - off];
      }
    }
  }

  /** A number holds neither a comma nor white space. */
  lemma DecimalChars(t: string)
    requires Decimal(t)
    ensures t != [] && forall i :: 0 <= i < |t| ==> t[i] != ',' && !IsSpace(t[i])
  {
    DecimalIsNumberChars(t);
    forall i | 0 <= i < |t|
      ensures t[i] != ',' && !IsSpace(t[i])
    {
      assert NumberChar(t[i]);
      if IsDecimalDigit(t[i]) {
        DecimalDigitIsNotPunctuation(t[i]);
      }
    }
  }

  /** A number with white space around it holds no comma. */
  lemma SpacedNumberHasNoComma(a: string, n: string, b: string)
    requires AllSpace(a) && AllSpace(b) && Decimal(n)
    ensures ',' !in a + n + b
  {
    DecimalChars(n);
    assert ',' !in a && ',' !in n && ',' !in b;
  }

  /** One side of the comma: white space, a number, white space. */
  function NumberIn(x: string): Option<string> {
    var n := Strip(x);
    if Decimal(n) then Some(n) else None
  }

  lemma NumberInComplete(a: string, n: string, b: string)
    requires AllSpace(a) && AllSpace(b) && Decimal(n)
    ensures NumberIn(a + n + b) == Some(n)
  {
    DecimalChars(n);
    StripSurrounded(a, n, b);
  }

  lemma NumberInSound(x: string) returns (a: string, b: string)
    requires NumberIn(x).Some?
    ensures x == a + NumberIn(x).value + b && AllSpace(a) && AllSpace(b) && Decimal(NumberIn(x).value)
  {
    a, b := StripSplits(x);
  }

  /** The text after `geo:`: a number on either side of its only comma. */
  function GeoBody(u: string): Option<Point> {
    var parts := Split(u, ',');
    if |parts| != 2 then None
    else
      var lat, lon := NumberIn(parts[0]), NumberIn(parts[1]);
      if lat.Some? && lon.Some? then Some(Point(lat.value, lon.value)) else None
  }

  lemma GeoBodyComplete(x: string, y: string, p: Point)
    requires ',' !in x && ',' !in y
    requires NumberIn(x) == Some(p.lat) && NumberIn(y) == Some(p.lon)
    ensures GeoBody(x + "," + y) == Some(p)
  {
    assert Join([','], [x, y]) == x + "," + y by {
      assert [x, y][1..] == [y];
    }
    SplitJoin([x, y], ',');
  }

  lemma GeoBodySound(u: string) returns (x: string, y: string)
    requires GeoBody(u).Some?
    ensures u == x + "," + y
    ensures NumberIn(x) == Some(GeoBody(u).value.lat) && NumberIn(y) == Some(GeoBody(u).value.lon)
  {
    var parts := Split(u, ',');
    x, y := parts[0], parts[1];
    assert Join([','], parts) == x + "," + y by {
      assert parts[1..] == [y];
    }
  }

  /** The stripped text: `geo:` in any case, then the body. */
  function AfterPrefix(t: string): Option<Point> {
    if |t| < 4 || Lower(t[..4]) != "geo:" then None else GeoBody(t[4..])
  }

  /** `GEO_RE.match(s.strip())`: after stripping, `geo:` in any case, then
      white space, a number, white space, a comma, white space, a number
      and white space to the end. As no number holds a comma or white
      space, the text after the prefix holds exactly one comma and each
      side of it, stripped, is the number. */
  function ParseGeoText(s: string): Option<Point> {
    AfterPrefix(Strip(s))
  }

  /** `parse_geo`: `None` for anything but a string. */
  function ParseGeo(v: Json): (r: Option<Point>)
    ensures !v.JStr? ==> r.None?
    ensures v.JStr? ==> r == ParseGeoText(v.s)
  {
    if v.JStr? then ParseGeoText(v.s) else None
  }

  /** The text of a `geo:` point as the pattern reads it: white space
      around everything, the prefix in any case, white space around each
      number. */
  ghost predicate GeoForm(s: string, lead: string, prefix: string, a: string, p: Point, b: string, c: string, d: string) {
    && s == lead + prefix + a + p.lat + b + "," + c + p.lon + d
    && AllSpace(lead) && AllSpace(a) && AllSpace(b) && AllSpace(c) && AllSpace(d)
    && |prefix| == 4 && Lower(prefix) == "geo:"
    && Decimal(p.lat) && Decimal(p.lon)
  }

  /** The pieces of a `geo:` text, regrouped. */
  lemma Regroup(s: string, lead: string, prefix: string, a: string, lat: string, b: string, c: string, lon: string, e: string, d: string)
    ensures lead + prefix + a + lat + b + "," + c + lon + (e + d)
         == lead + (prefix + ((a + lat + b) + "," + (c + lon + e))) + d
  {
  }

  lemma SliceThree(s: string, i: nat, j: nat)
    requires i <= j <= |s|
    ensures s == s[..i] + s[i..j] + s[j..]
  {
  }

  lemma AllSpaceConcat(a: string, b: string)
    requires AllSpace(a) && AllSpace(b)
    ensures AllSpace(a + b)
  {
    assert forall i :: 0 <= i < |a + b| ==> (a + b)[i] == if i < |a| then a[i] else b[i - |a|];
  }

  lemma AfterPrefixComplete(prefix: string, x: string, y: string, p: Point)
    requires |prefix| == 4 && Lower(prefix) == "geo:"
    requires GeoBody(x + "," + y) == Some(p)
    ensures AfterPrefix(prefix + (x + "," + y)) == Some(p)
  {
    var t := prefix + (x + "," + y);
    assert t[..4] == prefix && t[4..] == x + "," + y;
  }

  lemma SpacedBody(a: string, b: string, c: string, p: Point)
    requires AllSpace(a) && AllSpace(b) && AllSpace(c) && Decimal(p.lat) && Decimal(p.lon)
    ensures GeoBody((a + p.lat + b) + "," + (c + p.lon + [])) == Some(p)
  {
    NumberInComplete(a, p.lat, b);
    NumberInComplete(c, p.lon, []);
    SpacedNumberHasNoComma(a, p.lat, b);
    SpacedNumberHasNoComma(c, p.lon, []);
    GeoBodyComplete(a + p.lat + b, c + p.lon + [], p);
  }

  /** The text from the prefix to the last number neither starts nor ends
      with white space. */
  lemma CoreHasNoEdgeSpace(prefix: string, x: string, c: string, lon: string)
    requires |prefix| == 4 && Lower(prefix) == "geo:" && Decimal(lon)
    ensures var core := prefix + (x + "," + (c + lon + []));
      core != [] && !IsSpace(core[0]) && !IsSpace(core[|core| - 1])
  {
    var core := prefix + (x + "," + (c + lon + []));
    assert Lower(prefix)[0] == 'g';
    DecimalChars(lon);
    assert core[|core| - 1] == lon[|lon| - 1];
  }

  /** Every text of that form is accepted, with its two numbers in order. */
  lemma ParseGeoComplete(s: string, lead: string, prefix: string, a: string, p: Point, b: string, c: string, d: string)
    requires GeoForm(s, lead, prefix, a, p, b, c, d)
    ensures ParseGeoText(s) == Some(p)
  {
    var x := a + p.lat + b;
    var y := c + p.lon + [];
    SpacedBody(a, b, c, p);
    var core := prefix + (x + "," + y);
    Regroup(s, lead, prefix, a, p.lat, b, c, p.lon, [], d);
    assert [] + d == d;
    CoreHasNoEdgeSpace(prefix, x, c, p.lon);
    StripSurrounded(lead, core, d);
    AfterPrefixComplete(prefix, x, y, p);
  }

  /** Every accepted text has that form: the point is the two numbers it
      holds, latitude first. */
  lemma ParseGeoSound(s: string) returns (lead: string, prefix: string, a: string, b: string, c: string, d: string)
    requires ParseGeoText(s).Some?
    ensures GeoForm(s, lead, prefix, a, ParseGeoText(s).value, b, c, d)
  {
    var t := Strip(s);
    var n := LeadingSpace(s);
    lead := s[..n];
    var tail := s[n + |t|..];
    SliceThree(s, n, n + |t|);
    prefix := t[..4];
    var x, y := GeoBodySound(t[4..]);
    SliceThree(t, 4, 4);
    a, b := NumberInSound(x);
    var e;
    c, e := NumberInSound(y);
    d := e + tail;
    AllSpaceConcat(e, tail);
    Regroup(s, lead, prefix, a, NumberIn(x).value, b, c, NumberIn(y).value, e, tail);
  }

  /** The `geo:` URI of a point, `f"geo:{lat},{lon}"`.  The subsetter only
      reads these URIs; this writer is not in its source and exists only to
      illustrate, by the lemma below, that `parse_geo` accepts every
      well-formed URI and gives its point back. */
  function FormatGeo(p: Point): string {
    "geo:" + p.lat + "," + p.lon
  }

  /** Formatting then parsing gives the point back. */
  lemma ParseFormatGeo(p: Point)
    requires Decimal(p.lat) && Decimal(p.lon)
    ensures ParseGeoText(FormatGeo(p)) == Some(p)
  {
    assert FormatGeo(p) == [] + "geo:" + [] + p.lat + [] + "," + [] + p.lon + [];
    ParseGeoComplete(FormatGeo(p), [], "geo:", [], p, [], [], []);
  }

  // ---------------------------------------------------------------------
  // extract_points
  // ---------------------------------------------------------------------

  /** `v.get(key)` read as Python does when `v` is known to be a dict:
      a missing key gives `None`, the JSON null. */
  function Lookup(v: Json, key: string): Json {
    match Member(v, key)
    case None => JNull
    case Some(x) => x
  }

  /** `visit.topCandidate.placeLocation`, when both enclosing values are dicts. */
  function VisitValues(obj: Json): seq<Json> {
    var visit := Lookup(obj, "visit");
    if visit.JObj? && Lookup(visit, "topCandidate").JObj? then [Lookup(Lookup(visit, "topCandidate"), "placeLocation")]
    else []
  }

  /** `activity.start`, then `activity.end`, when `activity` is a dict. */
  function ActivityValues(obj: Json): seq<Json> {
    var activity := Lookup(obj, "activity");
    if activity.JObj? then [Lookup(activity, "start"), Lookup(activity, "end")] else []
  }

  /** `step.point` of every step that is a dict, in order. */
  function StepValues(steps: seq<Json>): seq<Json>
    decreases |steps|
  {
    if steps == [] then []
    else
      var last := steps[|steps| - 1];
      StepValues(steps[..|steps| - 1]) + (if last.JObj? then [Lookup(last, "point")] else [])
  }

  function PathValues(obj: Json): seq<Json> {
    var path := Lookup(obj, "timelinePath");
    if path.JArr? then StepValues(path.items) else []
  }

  /** The shallow scan: the string values of the record's own fields whose
      lower-case form starts with `geo:`, in field order. */
  function GeoStrings(fields: seq<Field>): seq<Json>
    decreases |fields|
  {
    if fields == [] then []
    else
      var v := fields[|fields| - 1].value;
      GeoStrings(fields[..|fields| - 1]) + (if v.JStr? && StartsWith(Lower(v.s), "geo:") then [v] else [])
  }

  function ShallowValues(obj: Json): seq<Json> {
    if obj.JObj? then GeoStrings(obj.fields) else []
  }

  /** Every value `extract_points` hands to `parse_geo`, in the order it
      does so. */
  function Candidates(obj: Json): seq<Json> {
    VisitValues(obj) + ActivityValues(obj) + PathValues(obj) + ShallowValues(obj)
  }

  /** The points of the values that parse, one per value, in order. */
  function Parsed(xs: seq<Json>, parse: Json -> Option<Point>): seq<Point>
    decreases |xs|
  {
    if xs == [] then []
    else
      var g := parse(xs[|xs| - 1]);
      Parsed(xs[..|xs| - 1], parse) + (if g.Some? then [g.value] else [])
  }

  /** What `extract_points` returns for a record. */
  function Points(obj: Json): seq<Point> {
    Parsed(Candidates(obj), ParseGeo)
  }

  lemma ParsedSnoc(xs: seq<Json>, x: Json, parse: Json -> Option<Point>)
    ensures Parsed(xs + [x], parse) == Parsed(xs, parse) + (if parse(x).Some? then [parse(x).value] else [])
  {
    assert (xs + [x])[..|xs|] == xs;
  }

  lemma {:induction false} ParsedConcat(a: seq<Json>, b: seq<Json>, parse: Json -> Option<Point>)
    ensures Parsed(a + b, parse) == Parsed(a, parse) + Parsed(b, parse)
    decreases |b|
  {
    if b == [] {
      assert a + b == a;
    } else {
      var init := b[..|b| - 1];
      assert (a + b)[..|a + b| - 1] == a + init;
      ParsedConcat(a, init, parse);
    }
  }

  /** The points come in the fixed order: the visit's place, the
      activity's start and end, the path's points, then the shallow
      scan's. */
  lemma PointsInOrder(obj: Json, parse: Json -> Option<Point>)
    ensures Parsed(Candidates(obj), parse)
         == Parsed(VisitValues(obj), parse) + Parsed(ActivityValues(obj), parse)
          + Parsed(PathValues(obj), parse) + Parsed(ShallowValues(obj), parse)
  {
    var v, a, p, s := VisitValues(obj), ActivityValues(obj), PathValues(obj), ShallowValues(obj);
    ParsedConcat(v + a + p, s, parse);
    ParsedConcat(v + a, p, parse);
    ParsedConcat(v, a, parse);
  }

  /** Each value that parses contributes its point and each point comes
      from a value that parses: malformed values contribute nothing and
      equal points are not merged. */
  lemma {:induction false} ParsedIsOnePerParsedValue(xs: seq<Json>, parse: Json -> Option<Point>)
    ensures forall q :: q in Parsed(xs, parse) ==> exists k :: 0 <= k < |xs| && parse(xs[k]) == Some(q)
    ensures forall k :: 0 <= k < |xs| && parse(xs[k]).Some? ==> parse(xs[k]).value in Parsed(xs, parse)
    ensures (forall k :: 0 <= k < |xs| ==> parse(xs[k]).Some?) ==> |Parsed(xs, parse)| == |xs|
    ensures (forall k :: 0 <= k < |xs| ==> parse(xs[k]).None?) ==> Parsed(xs, parse) == []
    decreases |xs|
  {
    if xs != [] {
      var init := xs[..|xs| - 1];
      ParsedIsOnePerParsedValue(init, parse);
      assert forall k :: 0 <= k < |init| ==> init[k] == xs[k];
    }
  }

  /** The `timelinePath` loop: the point of each step that is a dict. */
  method StepPoints(steps: seq<Json>, parse: Json -> Option<Point>) returns (pts: seq<Point>)
    ensures pts == Parsed(StepValues(steps), parse)
  {
    pts := [];
    for i := 0 to |steps|
      invariant pts == Parsed(StepValues(steps[..i]), parse)
    {
      var step := steps[i];
      assert steps[..i + 1][..i] == steps[..i];
      if step.JObj? {
        var v := Lookup(step, "point");
        assert StepValues(steps[..i + 1]) == StepValues(steps[..i]) + [v];
        ParsedSnoc(StepValues(steps[..i]), v, parse);
        var p := parse(v);
        if p.Some? {
          pts := pts + [p.value];
        }
      } else {
        assert StepValues(steps[..i + 1]) == StepValues(steps[..i]);
      }
    }
    assert steps[..|steps|] == steps;
  }

  /** The shallow scan: every string field whose lower-case form starts
      with `geo:`. */
  method FieldPoints(fields: seq<Field>, parse: Json -> Option<Point>) returns (pts: seq<Point>)
    ensures pts == Parsed(GeoStrings(fields), parse)
  {
    pts := [];
    for i := 0 to |fields|
      invariant pts == Parsed(GeoStrings(fields[..i]), parse)
    {
      var v := fields[i].value;
      assert fields[..i + 1][..i] == fields[..i];
      if v.JStr? && StartsWith(Lower(v.s), "geo:") {
        assert GeoStrings(fields[..i + 1]) == GeoStrings(fields[..i]) + [v];
        ParsedSnoc(GeoStrings(fields[..i]), v, parse);
        var p := parse(v);
        if p.Some? {
          pts := pts + [p.value];
        }
      } else {
        assert GeoStrings(fields[..i + 1]) == GeoStrings(fields[..i]);
      }
    }
    assert fields[..|fields|] == fields;
  }

  /** `extract_points` for any point parser: the visit's place, the
      activity's start and end, the path's points and the shallow scan,
      in that order. */
  method CollectPoints(obj: Json, parse: Json -> Option<Point>) returns (pts: seq<Point>)
    ensures pts == Parsed(Candidates(obj), parse)
  {
    pts := [];
    var visit := Lookup(obj, "visit");
    if visit.JObj? {
      var tc := Lookup(visit, "topCandidate");
      if tc.JObj? {
        var pl := parse(Lookup(tc, "placeLocation"));
        ParsedSnoc([], Lookup(tc, "placeLocation"), parse);
        if pl.Some? {
          pts := pts + [pl.value];
        }
      }
    }
    assert pts == Parsed(VisitValues(obj), parse);
    var activity := Lookup(obj, "activity");
    var more := [];
    if activity.JObj? {
      var sv, ev := Lookup(activity, "start"), Lookup(activity, "end");
      var s := parse(sv);
      var e := parse(ev);
      ParsedSnoc([], sv, parse);
      ParsedSnoc([sv], ev, parse);
      assert [sv] + [ev] == [sv, ev];
      if s.Some? {
        more := more + [s.value];
      }
      if e.Some? {
        more := more + [e.value];
      }
    }
    assert more == Parsed(ActivityValues(obj), parse);
    pts := pts + more;
    var path := Lookup(obj, "timelinePath");
    more := [];
    if path.JArr? {
      more := StepPoints(path.items, parse);
    }
    assert more == Parsed(PathValues(obj), parse);
    pts := pts + more;
    more := [];
    if obj.JObj? {
      more := FieldPoints(obj.fields, parse);
    }
    assert more == Parsed(ShallowValues(obj), parse);
    pts := pts + more;
    PointsInOrder(obj, parse);
  }

  /** `extract_points`. */
  method ExtractPoints(obj: Json) returns (pts: seq<Point>)
    ensures pts == Points(obj)
  {
    pts := CollectPoints(obj, ParseGeo);
  }

  // ---------------------------------------------------------------------
  // select_state_geom
  // ---------------------------------------------------------------------

  /** A row of the state boundary table: `NAME` and `STUSPS`; the shape is
      what `contains` is given the row for. */
  datatype StateRow = StateRow(name: string, code: string)

  datatype StateError = MissingColumns | StateNotFound

  /** The first round of matching: name or code equal to the query. */
  predicate ExactHit(row: StateRow, q: string) {
    Lower(row.name) == q || Lower(row.code) == q
  }

  /** The fallback: the query occurs in the name. */
  predicate PartialHit(row: StateRow, q: string) {
    Contains(Lower(row.name), q)
  }

  /** The first row, at or after `from`, that `hit` accepts. */
  function FirstHit(rows: seq<StateRow>, hit: StateRow -> bool, from: nat): (r: Option<nat>)
    ensures r.Some? ==> from <= r.value < |rows| && hit(rows[r.value])
    ensures r.Some? ==> forall j :: from <= j < r.value ==> !hit(rows[j])
    ensures r.None? ==> forall j :: from <= j < |rows| ==> !hit(rows[j])
    decreases |rows| - from
  {
    if from >= |rows| then None
    else if hit(rows[from]) then Some(from)
    else FirstHit(rows, hit, from + 1)
  }

  /** `select_state_geom`: the query is stripped and lower-cased; the
      table must have both columns; the first row whose name or code
      equals the query wins; failing that, the first row whose name holds
      the query; failing that, the query is an error. */
  function SelectState(columns: seq<string>, rows: seq<StateRow>, query: string): (r: Result<StateRow, StateError>)
    ensures r == Err(MissingColumns) <==> "NAME" !in columns || "STUSPS" !in columns
    ensures var q := Lower(Strip(query));
      r.Ok? ==> exists i :: (0 <= i < |rows| && rows[i] == r.value
        && ((ExactHit(rows[i], q) && forall j :: 0 <= j < i ==> !ExactHit(rows[j], q))
            || ((forall j :: 0 <= j < |rows| ==> !ExactHit(rows[j], q))
                && PartialHit(rows[i], q) && forall j :: 0 <= j < i ==> !PartialHit(rows[j], q))))
    ensures var q := Lower(Strip(query));
      r == Err(StateNotFound) <==>
        "NAME" in columns && "STUSPS" in columns && forall j :: 0 <= j < |rows| ==> !ExactHit(rows[j], q) && !PartialHit(rows[j], q)
  {
    var q := Lower(Strip(query));
    if "NAME" !in columns || "STUSPS" !in columns then Err(MissingColumns)
    else
      match FirstHit(rows, row => ExactHit(row, q), 0)
      case Some(i) => Ok(rows[i])
      case None =>
        match FirstHit(rows, row => PartialHit(row, q), 0)
        case Some(i) => Ok(rows[i])
        case None => Err(StateNotFound)
  }

  /** A blank query selects the first row of any table whose names and
      codes are all non-empty: the empty string occurs in every name. */
  lemma BlankQuerySelectsFirstRow(columns: seq<string>, rows: seq<StateRow>, query: string)
    requires "NAME" in columns && "STUSPS" in columns
    requires |rows| > 0 && forall j :: 0 <= j < |rows| ==> rows[j].name != [] && rows[j].code != []
    requires AllSpace(query)
    ensures SelectState(columns, rows, query) == Ok(rows[0])
  {
    assert Strip(query) == [];
    assert OccursAt(Lower(rows[0].name), [], 0);
    assert forall j :: 0 <= j < |rows| ==> |Lower(rows[j].name)| > 0 && |Lower(rows[j].code)| > 0;
  }

  // ---------------------------------------------------------------------
  // record_in_state
  // ---------------------------------------------------------------------

  /** Whether some point lies in the state (longitude as x, latitude
      as y). */
  predicate AnyInside(pts: seq<Point>, contains: (StateRow, string, string) -> bool, state: StateRow) {
    exists i | 0 <= i < |pts| :: contains(state, pts[i].lon, pts[i].lat)
  }

  /** Whether some point of the record lies in the state. */
  predicate InState(obj: Json, contains: (StateRow, string, string) -> bool, state: StateRow) {
    AnyInside(Points(obj), contains, state)
  }

  function InStateOf(contains: (StateRow, string, string) -> bool, state: StateRow): Json -> bool {
    obj => InState(obj, contains, state)
  }

  /** The loop of `record_in_state`: false without points, otherwise true
      as soon as one point is inside. */
  method FirstInside(pts: seq<Point>, contains: (StateRow, string, string) -> bool, state: StateRow) returns (inside: bool)
    ensures inside <==> exists i :: 0 <= i < |pts| && contains(state, pts[i].lon, pts[i].lat)
    ensures pts == [] ==> !inside
  {
    if pts == [] {
      return false;
    }
    for i := 0 to |pts|
      invariant forall k :: 0 <= k < i ==> !contains(state, pts[k].lon, pts[k].lat)
    {
      if contains(state, pts[i].lon, pts[i].lat) {
        return true;
      }
    }
    return false;
  }

  /** `record_in_state`: whether some extracted point is inside; never for
      a record without points. */
  method RecordInState(obj: Json, contains: (StateRow, string, string) -> bool, state: StateRow) returns (inside: bool)
    ensures inside == InState(obj, contains, state)
    ensures Points(obj) == [] ==> !inside
  {
    var pts := ExtractPoints(obj);
    inside := FirstInside(pts, contains, state);
  }

  // ---------------------------------------------------------------------
  // iter_records
  // ---------------------------------------------------------------------

  /** `iter_records`: with a non-empty `--records-key`, the keyed reader;
      otherwise the input must start (after white space) with `[`, and is
      rejected before any record is read when it does not. */
  function Records(s: string, recordsKey: Option<string>, decode: string -> Option<Json>): Stream {
    if recordsKey.Some? && recordsKey.value != [] then Keyed(s, recordsKey.value, decode)
    else
      var i := LeadingSpace(s);
      if i < |s| && s[i] == '[' then TopLevel(s, false, decode)
      else Stream([], Some(ArrayRequired))
  }

  method ReadRecords(s: string, recordsKey: Option<string>, decode: string -> Option<Json>) returns (r: Stream)
    ensures r == Records(s, recordsKey, decode)
    ensures (recordsKey.None? || recordsKey.value == []) && (LeadingSpace(s) == |s| || s[LeadingSpace(s)] != '[')
      ==> r == Stream([], Some(ArrayRequired))
  {
    if recordsKey.Some? && recordsKey.value != [] {
      r := ReadKeyedArray(s, recordsKey.value, 2048, 20, decode);
      return;
    }
    var i := SkipSpace(s);
    if i == |s| || s[i] != '[' {
      return Stream([], Some(ArrayRequired));
    }
    r := ReadTopLevelArray(s, false, decode);
  }

  /** Every record the reader yields is a dict. */
  lemma RecordsYieldsDicts(s: string, recordsKey: Option<string>, decode: string -> Option<Json>)
    ensures AllDicts(Records(s, recordsKey, decode).items)
  {
    if recordsKey.Some? && recordsKey.value != [] {
      KeyedYieldsDicts(s, recordsKey.value, decode);
    } else {
      TopLevelYieldsDicts(s, false, decode);
    }
  }

  // ---------------------------------------------------------------------
  // main
  // ---------------------------------------------------------------------

  /** The export loop: counts every record, and writes each record in the
      state, up to `limit` of them, with a comma and a newline between
      written records. */
  method ExportLoop(records: seq<Json>, contains: (StateRow, string, string) -> bool, state: StateRow, limit: Option<int>)
    returns (total: nat, kept: nat, out: string)
    ensures total == |records|
    ensures kept == |Capped(Matching(records, InStateOf(contains, state)), limit)|
    ensures limit.Some? ==> kept <= (if limit.value < 0 then 0 else limit.value)
    ensures out == "[\n" + Join(",\n", DumpsAll(Capped(Matching(records, InStateOf(contains, state)), limit)))
  {
    total, kept := 0, 0;
    out := "[\n";
    var first := true;
    ghost var written: seq<Json> := [];
    for i := 0 to |records|
      invariant total == i
      invariant written == Capped(Matching(records[..i], InStateOf(contains, state)), limit)
      invariant kept == |written| && first == (written == [])
      invariant out == "[\n" + Join(",\n", DumpsAll(written))
    {
      var obj := records[i];
      KeptStep(records, i, InStateOf(contains, state), limit);
      total := total + 1;
      var inside := RecordInState(obj, contains, state);
      assert inside == InStateOf(contains, state)(obj);
      if inside {
        if limit.Some? && kept >= limit.value {
          continue;
        }
        WriteNext(written, obj);
        if !first {
          out := out + ",\n";
        }
        out := out + Dumps(obj);
        first := false;
        kept := kept + 1;
        written := written + [obj];
      }
    }
    assert records[..|records|] == records;
  }

  /** The exit code, the counts, the text written to the output file (none
      when no state was selected), and the error that ended the run. */
  datatype Outcome = Outcome(code: int, total: nat, kept: nat, written: Option<string>,
                             stateErr: Option<StateError>, readErr: Option<ReadError>)

  /** What the export ends with, given what the reader produced: the
      records in the state up to the limit, and the closing bracket only
      when reading finished (a read error escapes `main`: exit code 1). */
  function ExportOutcome(rs: Stream, contains: (StateRow, string, string) -> bool, state: StateRow, limit: Option<int>): Outcome {
    var kept := Capped(Matching(rs.items, InStateOf(contains, state)), limit);
    Outcome(if rs.err.Some? then 1 else 0, |rs.items|, |kept|, Some(ArrayText(kept, rs.err.None?)), None, rs.err)
  }

  /** `main`: the state is selected before the output is opened, so a
      failed selection writes nothing. */
  function MainOutcome(columns: seq<string>, rows: seq<StateRow>, query: string, s: string, recordsKey: Option<string>,
                       limit: Option<int>, contains: (StateRow, string, string) -> bool, decode: string -> Option<Json>): Outcome {
    match SelectState(columns, rows, query)
    case Err(e) => Outcome(1, 0, 0, None, Some(e), None)
    case Ok(state) => ExportOutcome(Records(s, recordsKey, decode), contains, state, limit)
  }

  method RunMain(columns: seq<string>, rows: seq<StateRow>, query: string, s: string, recordsKey: Option<string>,
                 limit: Option<int>, contains: (StateRow, string, string) -> bool, decode: string -> Option<Json>)
    returns (res: Outcome)
    ensures res == MainOutcome(columns, rows, query, s, recordsKey, limit, contains, decode)
  {
    var selected := SelectState(columns, rows, query);
    if selected.Err? {
      return Outcome(1, 0, 0, None, Some(selected.error), None);
    }
    var state := selected.value;
    var rs := ReadRecords(s, recordsKey, decode);
    var total, kept, out := ExportLoop(rs.items, contains, state, limit);
    ghost var written := Capped(Matching(rs.items, InStateOf(contains, state)), limit);
    ArrayTextFrom(written, rs.err.None?, out);
    if rs.err.None? {
      out := out + "\n]\n";
    } else {
      assert out + "" == out;
    }
    assert out == ArrayText(written, rs.err.None?);
    return Outcome(if rs.err.Some? then 1 else 0, total, kept, Some(out), None, rs.err);
  }

  /** The limit is never exceeded, every record read is counted, and only
      records with a point in the state are kept. */
  lemma ExportWithinLimit(rs: Stream, contains: (StateRow, string, string) -> bool, state: StateRow, limit: Option<int>)
    ensures var res := ExportOutcome(rs, contains, state, limit);
      && res.total == |rs.items|
      && (limit.Some? ==> res.kept <= (if limit.value < 0 then 0 else limit.value))
      && res.kept <= res.total
      && (limit.None? ==> res.kept == |Matching(rs.items, InStateOf(contains, state))|)
  {
    MatchingIsFilter(rs.items, InStateOf(contains, state));
  }

  /** Every written record has a point in the state. */
  lemma WrittenRecordsAreInState(rs: Stream, contains: (StateRow, string, string) -> bool, state: StateRow, limit: Option<int>)
    ensures var kept := Capped(Matching(rs.items, InStateOf(contains, state)), limit);
      forall k :: 0 <= k < |kept| ==> kept[k] in rs.items && Points(kept[k]) != [] && InState(kept[k], contains, state)
  {
    var m := Matching(rs.items, InStateOf(contains, state));
    MatchingIsFilter(rs.items, InStateOf(contains, state));
    var kept := Capped(m, limit);
    forall k | 0 <= k < |kept|
      ensures kept[k] in rs.items && Points(kept[k]) != [] && InState(kept[k], contains, state)
    {
      assert kept[k] == m[k];
      assert InStateOf(contains, state)(m[k]);
    }
  }

  /** The written file is a JSON array the top-level reader reads back as
      exactly the kept records, provided the read finished and the decoder
      inverts the encoder on them. */
  lemma ExportReadsBack(s: string, recordsKey: Option<string>, contains: (StateRow, string, string) -> bool, state: StateRow,
                        limit: Option<int>, decode: string -> Option<Json>)
    requires Records(s, recordsKey, decode).err.None?
    requires var kept := Capped(Matching(Records(s, recordsKey, decode).items, InStateOf(contains, state)), limit);
      forall k :: 0 <= k < |kept| ==> decode(Dumps(kept[k])) == Some(kept[k])
    ensures var kept := Capped(Matching(Records(s, recordsKey, decode).items, InStateOf(contains, state)), limit);
      TopLevel(ArrayText(kept, true), false, decode) == Stream(kept, None)
  {
    var items := Records(s, recordsKey, decode).items;
    var m := Matching(items, InStateOf(contains, state));
    var kept := Capped(m, limit);
    RecordsYieldsDicts(s, recordsKey, decode);
    MatchingIsFilter(items, InStateOf(contains, state));
    forall k | 0 <= k < |kept|
      ensures kept[k].JObj?
    {
      assert kept[k] == m[k];
      assert m[k] in items;
    }
    ArrayTextReadsBack(kept, false, decode);
  }
}
