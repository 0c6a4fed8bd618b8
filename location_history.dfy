/** subset_location_history.py: scan a Google Location History export for
    its earliest and latest timestamps, or export the records whose time
    span meets a window.

    Instants are integer seconds since the epoch in UTC.
    `datetime.fromisoformat` is the parameter `fromIso`, which yields the
    wall-clock reading and, when the text carries one, the UTC offset in
    seconds. */
module LocationHistory {
  import opened Wrappers
  import opened Text
  import opened Json
  import opened ObjectScanner

  // ---------------------------------------------------------------------
  // Time parsing
  // ---------------------------------------------------------------------

  /** What `datetime.fromisoformat` reads: a wall-clock time in seconds and
      the UTC offset, absent for a naive value. */
  datatype Wall = Wall(local: int, offset: Option<int>)

  /** `astimezone(timezone.utc)`, with a naive value taken to be UTC. */
  function ToUtc(w: Wall): int {
    match w.offset
    case None => w.local
    case Some(o) => w.local - o
  }

  /** The text handed to `fromisoformat`: a trailing `Z` becomes `+00:00`. */
  function IsoText(t: string): string {
    if EndsWith(t, "Z") then t[..|t| - 1] + "+00:00" else t
  }

  /** `parse_dt`: `None` for anything but a non-blank string and for text
      `fromisoformat` rejects; otherwise the instant in UTC. */
  function ParseDt(v: Json, fromIso: string -> Option<Wall>): (r: Option<int>)
    ensures !v.JStr? || AllSpace(v.s) ==> r.None?
    ensures v.JStr? && !AllSpace(v.s) ==>
      (r.Some? <==> fromIso(IsoText(Strip(v.s))).Some?)
    ensures r.Some? ==> r.value == ToUtc(fromIso(IsoText(Strip(v.s))).value)
  {
    if !v.JStr? then None
    else
      var t := Strip(v.s);
      if t == [] then None
      else
        match fromIso(IsoText(t))
        case None => None
        case Some(w) => Some(ToUtc(w))
  }

  /** A trailing `Z` means exactly what `+00:00` means. */
  lemma ZuluIsUtcOffset(x: string, fromIso: string -> Option<Wall>)
    requires x != [] && !IsSpace(x[0])
    ensures ParseDt(JStr(x + "Z"), fromIso) == ParseDt(JStr(x + "+00:00"), fromIso)
  {
    var z := x + "Z";
    var o := x + "+00:00";
    StripNoop(z);
    StripNoop(o);
    assert z[..|z| - 1] == x;
    assert !EndsWith(o, "Z");
  }

  /** A value in UTC (an offset of zero) or without an offset is read as
      its own wall-clock time. */
  lemma UtcAndNaiveKeepTheirClock(v: Json, fromIso: string -> Option<Wall>, w: Wall)
    requires v.JStr? && !AllSpace(v.s)
    requires fromIso(IsoText(Strip(v.s))) == Some(w)
    requires w.offset == None || w.offset == Some(0)
    ensures ParseDt(v, fromIso) == Some(w.local)
  {
  }

  // ---------------------------------------------------------------------
  // Extracting times from a record
  // ---------------------------------------------------------------------

  /** The parsed value of one named field of a record, if present. */
  function FieldTime(fields: seq<Field>, name: string, fromIso: string -> Option<Wall>): Option<int> {
    match Get(fields, name)
    case None => None
    case Some(v) => ParseDt(v, fromIso)
  }

  /** `extract_times` with named fields: each listed field, in list order,
      that is present and parses. */
  function NamedTimes(fields: seq<Field>, names: seq<string>, fromIso: string -> Option<Wall>): (r: seq<int>)
    ensures |r| <= |names|
    ensures forall i :: 0 <= i < |r| ==>
      exists k :: 0 <= k < |names| && FieldTime(fields, names[k], fromIso) == Some(r[i])
    decreases |names|
  {
    if names == [] then []
    else
      var rest := NamedTimes(fields, names[1..], fromIso);
      assert forall i :: 0 <= i < |rest| ==>
        exists k :: 0 <= k < |names| && FieldTime(fields, names[k], fromIso) == Some(rest[i]) by {
        forall i | 0 <= i < |rest|
          ensures exists k :: 0 <= k < |names| && FieldTime(fields, names[k], fromIso) == Some(rest[i])
        {
          var k :| 0 <= k < |names[1..]| && FieldTime(fields, names[1..][k], fromIso) == Some(rest[i]);
          assert names[1..][k] == names[k + 1];
        }
      }
      match FieldTime(fields, names[0], fromIso)
      case None => rest
      case Some(t) => [t] + rest
  }

  /** Only the listed fields are consulted: records that agree on them
      yield the same times. */
  lemma {:induction false} NamedTimesReadOnlyListedFields(a: seq<Field>, b: seq<Field>, names: seq<string>, fromIso: string -> Option<Wall>)
    requires forall k :: 0 <= k < |names| ==> Get(a, names[k]) == Get(b, names[k])
    ensures NamedTimes(a, names, fromIso) == NamedTimes(b, names, fromIso)
    decreases |names|
  {
    if names != [] {
      assert Get(a, names[0]) == Get(b, names[0]);
      forall k | 0 <= k < |names[1..]|
        ensures Get(a, names[1..][k]) == Get(b, names[1..][k])
      {
        assert names[1..][k] == names[k + 1];
      }
      NamedTimesReadOnlyListedFields(a, b, names[1..], fromIso);
    }
  }

  /** Every listed field that is present and parses contributes its time. */
  lemma {:induction false} NamedTimesComplete(fields: seq<Field>, names: seq<string>, fromIso: string -> Option<Wall>, k: nat)
    requires k < |names| && FieldTime(fields, names[k], fromIso).Some?
    ensures FieldTime(fields, names[k], fromIso).value in NamedTimes(fields, names, fromIso)
    decreases |names|
  {
    if k > 0 {
      assert names[1..][k - 1] == names[k];
      NamedTimesComplete(fields, names[1..], fromIso, k - 1);
    }
  }

  /** Field `k` of a record holds a string that parses to `t`. */
  predicate StringFieldTime(fields: seq<Field>, k: int, fromIso: string -> Option<Wall>, t: int) {
    0 <= k < |fields| && fields[k].value.JStr? && ParseDt(fields[k].value, fromIso) == Some(t)
  }

  /** `extract_times` with `scan_all_times`: every immediate string value
      of the record, in field order, that parses; nested values are not
      searched. */
  function ShallowTimes(fields: seq<Field>, fromIso: string -> Option<Wall>): (r: seq<int>)
    ensures |r| <= |fields|
    decreases |fields|
  {
    if fields == [] then []
    else
      var v := fields[0].value;
      var rest := ShallowTimes(fields[1..], fromIso);
      if v.JStr? && ParseDt(v, fromIso).Some? then [ParseDt(v, fromIso).value] + rest else rest
  }

  /** Each time of the shallow scan comes from an immediate string field. */
  lemma {:induction false} ShallowTimesFromStringFields(fields: seq<Field>, fromIso: string -> Option<Wall>, i: nat)
    requires i < |ShallowTimes(fields, fromIso)|
    ensures exists k :: StringFieldTime(fields, k, fromIso, ShallowTimes(fields, fromIso)[i])
    decreases |fields|
  {
    var v := fields[0].value;
    var rest := ShallowTimes(fields[1..], fromIso);
    var here := v.JStr? && ParseDt(v, fromIso).Some?;
    if here && i == 0 {
      assert StringFieldTime(fields, 0, fromIso, ShallowTimes(fields, fromIso)[i]);
    } else {
      var j := if here then i - 1 else i;
      assert ShallowTimes(fields, fromIso)[i] == rest[j];
      ShallowTimesFromStringFields(fields[1..], fromIso, j);
      var k :| StringFieldTime(fields[1..], k, fromIso, rest[j]);
      assert fields[1..][k] == fields[k + 1];
      assert StringFieldTime(fields, k + 1, fromIso, rest[j]);
    }
  }

  /** Every immediate string field that parses contributes its time to the
      shallow scan. */
  lemma {:induction false} ShallowTimesComplete(fields: seq<Field>, fromIso: string -> Option<Wall>, k: nat)
    requires k < |fields| && fields[k].value.JStr? && ParseDt(fields[k].value, fromIso).Some?
    ensures ParseDt(fields[k].value, fromIso).value in ShallowTimes(fields, fromIso)
    decreases k
  {
    if k > 0 {
      assert fields[1..][k - 1] == fields[k];
      ShallowTimesComplete(fields[1..], fromIso, k - 1);
    }
  }

  /** The settings that decide which records are exported. */
  datatype Window = Window(timeFields: seq<string>, scanAll: bool, start: Option<int>, end: Option<int>)

  /** `extract_times` on a record (the readers yield dicts only). */
  function RecordTimes(obj: Json, w: Window, fromIso: string -> Option<Wall>): seq<int> {
    if !obj.JObj? then []
    else if w.scanAll then ShallowTimes(obj.fields, fromIso)
    else NamedTimes(obj.fields, w.timeFields, fromIso)
  }

  // ---------------------------------------------------------------------
  // Ranges and the time window
  // ---------------------------------------------------------------------

  function SeqMin(xs: seq<int>): (m: int)
    requires xs != []
    ensures m in xs && forall x :: x in xs ==> m <= x
  {
    if |xs| == 1 then xs[0]
    else
      var m := SeqMin(xs[1..]);
      assert forall x :: x in xs ==> x == xs[0] || x in xs[1..];
      if xs[0] <= m then xs[0] else m
  }

  function SeqMax(xs: seq<int>): (m: int)
    requires xs != []
    ensures m in xs && forall x :: x in xs ==> x <= m
  {
    if |xs| == 1 then xs[0]
    else
      var m := SeqMax(xs[1..]);
      assert forall x :: x in xs ==> x == xs[0] || x in xs[1..];
      if xs[0] >= m then xs[0] else m
  }

  /** The earliest and latest instant seen so far. */
  datatype Range = Range(lo: int, hi: int)

  /** `update_range`: widen the range to cover `times`. The result is the
      smallest range covering the old one and every time. */
  function UpdateRange(cur: Option<Range>, times: seq<int>): (r: Option<Range>)
    ensures times == [] ==> r == cur
    ensures times != [] ==> r.Some? && forall t :: t in times ==> r.value.lo <= t <= r.value.hi
    ensures times != [] && cur.Some? ==> r.value.lo <= cur.value.lo && cur.value.hi <= r.value.hi
    ensures r.Some? ==> (r.value.lo in times || (cur.Some? && r.value.lo == cur.value.lo))
    ensures r.Some? ==> (r.value.hi in times || (cur.Some? && r.value.hi == cur.value.hi))
  {
    if times == [] then cur
    else
      var mn := SeqMin(times);
      var mx := SeqMax(times);
      match cur
      case None => Some(Range(mn, mx))
      case Some(c) => Some(Range(if c.lo <= mn then c.lo else mn, if c.hi >= mx then c.hi else mx))
  }

  /** `in_range`: the record has times, its latest is not before `start`
      and its earliest is not after `end` (both bounds inclusive). */
  function InRange(times: seq<int>, start: Option<int>, end: Option<int>): (r: bool)
    ensures times == [] ==> !r
    ensures r <==> times != []
                   && (start.None? || SeqMax(times) >= start.value)
                   && (end.None? || SeqMin(times) <= end.value)
  {
    if times == [] then false
    else if start.Some? && SeqMax(times) < start.value then false
    else if end.Some? && SeqMin(times) > end.value then false
    else true
  }

  /** An instant inside the window, bounds included. */
  predicate InWindow(t: int, start: Option<int>, end: Option<int>) {
    (start.None? || start.value <= t) && (end.None? || t <= end.value)
  }

  /** `in_range` holds exactly when the record's span from its earliest to
      its latest time meets the window. */
  lemma InRangeIsSpanOverlap(times: seq<int>, start: Option<int>, end: Option<int>)
    requires start.Some? && end.Some? ==> start.value <= end.value
    ensures InRange(times, start, end) <==>
      times != [] && exists t :: SeqMin(times) <= t <= SeqMax(times) && InWindow(t, start, end)
  {
    if InRange(times, start, end) {
      var lo, hi := SeqMin(times), SeqMax(times);
      var t := if start.Some? && start.value > lo then start.value else lo;
      assert lo <= t <= hi && InWindow(t, start, end);
    }
  }

  /** A record with one of its times inside the window is in range. */
  lemma SomeTimeInWindowIsInRange(times: seq<int>, start: Option<int>, end: Option<int>, k: nat)
    requires k < |times| && InWindow(times[k], start, end)
    ensures InRange(times, start, end)
  {
    assert times[k] in times;
  }

  /** The converse fails: a record whose times straddle the window is in
      range although none of its times is inside it. */
  lemma SpanOverlapWithoutTimeInside()
    ensures InRange([1, 10], Some(4), Some(6))
    ensures forall k :: 0 <= k < 2 ==> !InWindow([1, 10][k], Some(4), Some(6))
  {
    var xs := [1, 10];
    assert SeqMax(xs) == 10 by {
      assert 10 in xs;
    }
    assert SeqMin(xs) == 1 by {
      assert 1 in xs;
    }
  }

  // ---------------------------------------------------------------------
  // NDJSON
  // ---------------------------------------------------------------------

  /** `iter_ndjson` over `lines`, the first of which is line `n`: blank
      lines are skipped, each other line is decoded after stripping, dicts
      are yielded and other values skipped, and the first line the decoder
      rejects ends the read with its number. */
  function NdjsonLines(lines: seq<string>, n: nat, decode: string -> Option<Json>): Stream
    decreases |lines|
  {
    if lines == [] then Stream([], None)
    else
      var line := Strip(lines[0]);
      if line == [] then NdjsonLines(lines[1..], n + 1, decode)
      else
        match decode(line)
        case None => Stream([], Some(NdjsonParse(n)))
        case Some(v) =>
          var rest := NdjsonLines(lines[1..], n + 1, decode);
          if v.JObj? then Prepend([v], rest) else rest
  }

  /** `iter_ndjson` on the whole input. */
  function Ndjson(s: string, decode: string -> Option<Json>): Stream {
    NdjsonLines(Split(s, '\n'), 1, decode)
  }

  method ReadNdjson(s: string, decode: string -> Option<Json>) returns (r: Stream)
    ensures r == Ndjson(s, decode)
  {
    var lines := Split(s, '\n');
    var items: seq<Json> := [];
    var idx := 0;
    while idx < |lines|
      invariant idx <= |lines|
      invariant Ndjson(s, decode) == Prepend(items, NdjsonLines(lines[idx..], idx + 1, decode))
    {
      assert lines[idx..][1..] == lines[idx + 1..];
      var line := Strip(lines[idx]);
      idx := idx + 1;
      if line == [] {
        continue;
      }
      var v := decode(line);
      if v.None? {
        return Stream(items, Some(NdjsonParse(idx)));
      }
      if v.value.JObj? {
        PrependAssoc(items, [v.value], NdjsonLines(lines[idx..], idx + 1, decode));
        items := items + [v.value];
      }
    }
    assert items + [] == items;
    return Stream(items, None);
  }

  /** A line the NDJSON reader stops at: not blank after stripping, and
      rejected by the decoder. */
  predicate Rejects(decode: string -> Option<Json>, line: string) {
    Strip(line) != [] && decode(Strip(line)).None?
  }

  /** A line the reader does not reject leaves the error to the lines after it. */
  lemma NdjsonPassesLine(lines: seq<string>, n: nat, decode: string -> Option<Json>)
    requires lines != [] && !Rejects(decode, lines[0])
    ensures NdjsonLines(lines, n, decode).err == NdjsonLines(lines[1..], n + 1, decode).err
  {
  }

  /** The error of an NDJSON read names the first non-blank line the
      decoder rejects, counting from 1. */
  lemma {:induction false} NdjsonErrorNamesLine(lines: seq<string>, n: nat, decode: string -> Option<Json>, m: nat)
    requires NdjsonLines(lines, n, decode).err == Some(NdjsonParse(m))
    ensures n <= m < n + |lines|
    ensures Rejects(decode, lines[m - n])
    ensures forall k :: 0 <= k < m - n ==> !Rejects(decode, lines[k])
    decreases |lines|
  {
    if Rejects(decode, lines[0]) {
      assert m == n;
    } else {
      NdjsonPassesLine(lines, n, decode);
      NdjsonErrorNamesLine(lines[1..], n + 1, decode, m);
      assert lines[1..][m - n - 1] == lines[m - n];
      forall k | 0 <= k < m - n
        ensures !Rejects(decode, lines[k])
      {
        if k > 0 {
          assert lines[1..][k - 1] == lines[k];
        }
      }
    }
  }

  /** NDJSON reading yields dicts only. */
  lemma {:induction false} NdjsonYieldsDicts(lines: seq<string>, n: nat, decode: string -> Option<Json>)
    ensures AllDicts(NdjsonLines(lines, n, decode).items)
    decreases |lines|
  {
    if lines != [] {
      NdjsonYieldsDicts(lines[1..], n + 1, decode);
    }
  }

  /** Text `json.dumps` writes never holds a raw newline. */
  lemma {:induction false} DumpsHasNoNewline(j: Json)
    ensures '\n' !in Dumps(j)
    decreases j
  {
    match j
    case JNull =>
    case JBool(b) =>
    case JNum(n) =>
      var d := NatToString(if n < 0 then -n else n);
      assert forall i :: 0 <= i < |d| ==> IsDigit(d[i]);
    case JStr(s) =>
      EscapeHasNoNewline(s);
    case JArr(xs) =>
      DumpsItemsHasNoNewline(xs);
    case JObj(fs) =>
      DumpsFieldsHasNoNewline(fs);
  }

  lemma {:induction false} EscapeHasNoNewline(s: string)
    ensures '\n' !in Escape(s) && '\n' !in Quote(s)
    decreases |s|
  {
    if s != [] {
      var c := s[0];
      if c < ' ' && !(c == '\n' || c == '\r' || c == '\t' || c == '\U{8}' || c == '\U{c}') {
        var h := [HexDigitChar(c as int / 16), HexDigitChar(c as int % 16)];
        assert EscapeChar(c) == "\\u00" + h;
      }
      EscapeHasNoNewline(s[1..]);
    }
  }

  lemma {:induction false} DumpsItemsHasNoNewline(xs: seq<Json>)
    ensures '\n' !in DumpsItems(xs)
    decreases xs
  {
    if xs != [] {
      DumpsHasNoNewline(xs[0]);
      if |xs| > 1 {
        DumpsItemsHasNoNewline(xs[1..]);
      }
    }
  }

  lemma {:induction false} DumpsFieldsHasNoNewline(fs: seq<Field>)
    ensures '\n' !in DumpsFields(fs)
    decreases fs
  {
    if fs != [] {
      EscapeHasNoNewline(fs[0].key);
      DumpsHasNoNewline(fs[0].value);
      if |fs| > 1 {
        DumpsFieldsHasNoNewline(fs[1..]);
      }
    }
  }

  lemma {:induction false} NdjsonOfDumped(xs: seq<Json>, n: nat, decode: string -> Option<Json>)
    requires forall k :: 0 <= k < |xs| ==> xs[k].JObj? && decode(Dumps(xs[k])) == Some(xs[k])
    ensures NdjsonLines(DumpsAll(xs), n, decode) == Stream(xs, None)
    decreases |xs|
  {
    if xs != [] {
      var d := Dumps(xs[0]);
      assert d[0] == '{' && d[|d| - 1] == '}';
      StripNoop(d);
      assert DumpsAll(xs)[1..] == DumpsAll(xs[1..]);
      forall k | 0 <= k < |xs[1..]|
        ensures xs[1..][k].JObj? && decode(Dumps(xs[1..][k])) == Some(xs[1..][k])
      {
        assert xs[1..][k] == xs[k + 1];
      }
      NdjsonOfDumped(xs[1..], n + 1, decode);
      assert [xs[0]] + xs[1..] == xs;
    }
  }

  /** Records written one per line by `json.dumps` are read back by the
      NDJSON reader as themselves, provided the decoder inverts the
      encoder on each of them. */
  lemma NdjsonReadsBack(xs: seq<Json>, decode: string -> Option<Json>)
    requires forall k :: 0 <= k < |xs| ==> xs[k].JObj? && decode(Dumps(xs[k])) == Some(xs[k])
    ensures Ndjson(Join("\n", DumpsAll(xs)), decode) == Stream(xs, None)
  {
    if xs == [] {
      assert Split([], '\n') == [[]];
    } else {
      var parts := DumpsAll(xs);
      forall k | 0 <= k < |parts|
        ensures '\n' !in parts[k]
      {
        DumpsHasNoNewline(xs[k]);
      }
      SplitJoin(parts, '\n');
      NdjsonOfDumped(xs, 1, decode);
    }
  }

  // ---------------------------------------------------------------------
  // Format dispatch
  // ---------------------------------------------------------------------

  /** `iter_json_records`: the keyed reader when a non-empty key is given;
      otherwise the first non-blank character chooses the top-level array
      reader (`[`) or NDJSON (`{`, whose errors are re-raised as "not
      NDJSON"), and anything else (an empty file included) is rejected. */
  function JsonRecords(s: string, recordsKey: Option<string>, decode: string -> Option<Json>): Stream {
    if recordsKey.Some? && recordsKey.value != [] then Keyed(s, recordsKey.value, decode)
    else
      var i := LeadingSpace(s);
      if i < |s| && s[i] == '[' then TopLevel(s, true, decode)
      else if i < |s| && s[i] == '{' then
        var r := Ndjson(s, decode);
        if r.err.Some? then Stream(r.items, Some(NotNdjson(r.err.value))) else r
      else Stream([], Some(Unrecognized))
  }

  method ReadJsonRecords(s: string, recordsKey: Option<string>, decode: string -> Option<Json>) returns (r: Stream)
    ensures r == JsonRecords(s, recordsKey, decode)
  {
    if recordsKey.Some? && recordsKey.value != [] {
      r := ReadKeyedArray(s, recordsKey.value, 1024, 10, decode);
      return;
    }
    var i := SkipSpace(s);
    if i < |s| && s[i] == '[' {
      r := ReadTopLevelArray(s, true, decode);
      return;
    }
    if i < |s| && s[i] == '{' {
      r := ReadNdjson(s, decode);
      if r.err.Some? {
        r := Stream(r.items, Some(NotNdjson(r.err.value)));
      }
      return;
    }
    r := Stream([], Some(Unrecognized));
  }

  /** Every record the dispatcher yields is a dict. */
  lemma JsonRecordsYieldsDicts(s: string, recordsKey: Option<string>, decode: string -> Option<Json>)
    ensures AllDicts(JsonRecords(s, recordsKey, decode).items)
  {
    if recordsKey.Some? && recordsKey.value != [] {
      KeyedYieldsDicts(s, recordsKey.value, decode);
    } else {
      TopLevelYieldsDicts(s, true, decode);
      NdjsonYieldsDicts(Split(s, '\n'), 1, decode);
    }
  }

  // ---------------------------------------------------------------------
  // The scan and export loops of main
  // ---------------------------------------------------------------------

  /** `extract_times` for the given settings, as a function of the record. */
  function TimesOf(w: Window, fromIso: string -> Option<Wall>): Json -> seq<int> {
    obj => RecordTimes(obj, w, fromIso)
  }

  /** The export test: `in_range` on the record's times. */
  function SelectedBy(times: Json -> seq<int>, start: Option<int>, end: Option<int>): Json -> bool {
    obj => InRange(times(obj), start, end)
  }

  /** The overall range after `update_range` has seen every record. */
  function Overall(records: seq<Json>, times: Json -> seq<int>): Option<Range>
    decreases |records|
  {
    if records == [] then None
    else UpdateRange(Overall(records[..|records| - 1], times), times(records[|records| - 1]))
  }

  /** The overall range covers every time of every scanned record, kept or
      not, and its ends are times of some record; it is absent exactly when
      no record has a time. */
  lemma {:induction false} OverallCoversEveryRecord(records: seq<Json>, times: Json -> seq<int>)
    ensures var r := Overall(records, times);
      && (r.None? <==> forall i :: 0 <= i < |records| ==> times(records[i]) == [])
      && (r.Some? ==> forall i, t :: 0 <= i < |records| && t in times(records[i]) ==> r.value.lo <= t <= r.value.hi)
      && (r.Some? ==> exists i :: 0 <= i < |records| && r.value.lo in times(records[i]))
      && (r.Some? ==> exists i :: 0 <= i < |records| && r.value.hi in times(records[i]))
    decreases |records|
  {
    if records != [] {
      var init := records[..|records| - 1];
      OverallCoversEveryRecord(init, times);
      assert forall i :: 0 <= i < |init| ==> init[i] == records[i];
    }
  }

  /** One more record seen: the range grows by its times. */
  lemma OverallStep(records: seq<Json>, i: nat, times: Json -> seq<int>)
    requires i < |records|
    ensures Overall(records[..i + 1], times) == UpdateRange(Overall(records[..i], times), times(records[i]))
  {
    assert records[..i + 1][..i] == records[..i];
  }

  /** The scan-mode loop: counts the records and widens the overall range. */
  method ScanLoop(records: seq<Json>, extract: Json -> seq<int>) returns (total: nat, overall: Option<Range>)
    ensures total == |records|
    ensures overall == Overall(records, extract)
  {
    total, overall := 0, None;
    for i := 0 to |records|
      invariant total == i
      invariant overall == Overall(records[..i], extract)
    {
      assert records[..i + 1][..i] == records[..i];
      total := total + 1;
      var times := extract(records[i]);
      overall := UpdateRange(overall, times);
    }
    assert records[..|records|] == records;
  }

  /** The export-mode loop: counts and ranges every record, and writes each
      record in range, up to `limit` of them, separated by a comma and a
      newline. */
  method ExportLoop(records: seq<Json>, extract: Json -> seq<int>, start: Option<int>, end: Option<int>, limit: Option<int>)
    returns (total: nat, matched: nat, overall: Option<Range>, out: string)
    ensures total == |records|
    ensures overall == Overall(records, extract)
    ensures matched == |Capped(Matching(records, SelectedBy(extract, start, end)), limit)|
    ensures limit.Some? ==> matched <= (if limit.value < 0 then 0 else limit.value)
    ensures out == "[\n" + Join(",\n", DumpsAll(Capped(Matching(records, SelectedBy(extract, start, end)), limit)))
  {
    total, matched, overall := 0, 0, None;
    out := "[\n";
    var firstWritten := true;
    ghost var kept: seq<Json> := [];
    for i := 0 to |records|
      invariant total == i
      invariant overall == Overall(records[..i], extract)
      invariant kept == Capped(Matching(records[..i], SelectedBy(extract, start, end)), limit)
      invariant matched == |kept| && firstWritten == (kept == [])
      invariant out == "[\n" + Join(",\n", DumpsAll(kept))
    {
      var obj := records[i];
      OverallStep(records, i, extract);
      KeptStep(records, i, SelectedBy(extract, start, end), limit);
      total := total + 1;
      var times := extract(obj);
      overall := UpdateRange(overall, times);
      var selected := InRange(times, start, end);
      assert selected == SelectedBy(extract, start, end)(obj);
      if selected {
        if limit.Some? && matched >= limit.value {
          continue;
        }
        WriteNext(kept, obj);
        if !firstWritten {
          out := out + ",\n";
        }
        out := out + Dumps(obj);
        firstWritten := false;
        matched := matched + 1;
        kept := kept + [obj];
      }
    }
    assert records[..|records|] == records;
  }

  // ---------------------------------------------------------------------
  // main
  // ---------------------------------------------------------------------

  datatype Mode = ScanMode | ExportMode

  /** The command line: `--mode`, `--from`, `--to`, `--time-fields`,
      `--scan-all-times`, `--records-key` and `--limit`. */
  datatype Options = Options(
    mode: Mode, from: Option<string>, to: Option<string>, timeFields: string,
    scanAll: bool, recordsKey: Option<string>, limit: Option<int>)

  /** The exit code, the statistics, the text written to `--out` (export
      mode only) and the read error that ended the run, if any (an
      uncaught exception, exit code 1). */
  datatype Outcome = Outcome(code: int, total: nat, matched: nat, overall: Option<Range>, written: Option<string>, err: Option<ReadError>)

  /** `[x.strip() for x in text.split(",") if x.strip()]`. */
  function CleanFields(pieces: seq<string>): (r: seq<string>)
    ensures |r| <= |pieces|
    ensures forall i :: 0 <= i < |r| ==> r[i] != [] && Strip(r[i]) == r[i]
  {
    if pieces == [] then []
    else
      var t := Strip(pieces[0]);
      StripIdempotent(pieces[0]);
      (if t != [] then [t] else []) + CleanFields(pieces[1..])
  }

  /** `--from`/`--to`: absent or empty gives no bound, and text that does
      not parse silently gives no bound as well. */
  function Bound(arg: Option<string>, fromIso: string -> Option<Wall>): Option<int> {
    if arg.None? || arg.value == [] then None else ParseDt(JStr(arg.value), fromIso)
  }

  function WindowOf(o: Options, fromIso: string -> Option<Wall>): Window {
    Window(CleanFields(Split(o.timeFields, ',')), o.scanAll, Bound(o.from, fromIso), Bound(o.to, fromIso))
  }

  /** What scan mode ends with, given what the reader produced: exit code
      1 when reading failed or no record has a time, 0 otherwise. */
  function ScanOutcome(rs: Stream, extract: Json -> seq<int>): Outcome {
    var overall := Overall(rs.items, extract);
    Outcome(if rs.err.Some? || overall.None? then 1 else 0, |rs.items|, 0, overall, None, rs.err)
  }

  /** What export mode ends with: the records in range up to the limit are
      written, and the closing bracket only when reading finished. */
  function ExportOutcome(rs: Stream, extract: Json -> seq<int>, start: Option<int>, end: Option<int>, limit: Option<int>): Outcome {
    var kept := Capped(Matching(rs.items, SelectedBy(extract, start, end)), limit);
    Outcome(if rs.err.Some? then 1 else 0, |rs.items|, |kept|, Overall(rs.items, extract), Some(ArrayText(kept, rs.err.None?)), rs.err)
  }

  /** `main` on input text `s`: exit code 2, before anything is read, when
      the end of the window is before its start or when export mode has no
      bound; otherwise the scan or the export of what the reader yields. */
  function MainOutcome(o: Options, s: string, decode: string -> Option<Json>, fromIso: string -> Option<Wall>): Outcome {
    var w := WindowOf(o, fromIso);
    if w.start.Some? && w.end.Some? && w.end.value < w.start.value then Outcome(2, 0, 0, None, None, None)
    else if o.mode == ExportMode && w.start.None? && w.end.None? then Outcome(2, 0, 0, None, None, None)
    else if o.mode == ScanMode then ScanOutcome(JsonRecords(s, o.recordsKey, decode), TimesOf(w, fromIso))
    else ExportOutcome(JsonRecords(s, o.recordsKey, decode), TimesOf(w, fromIso), w.start, w.end, o.limit)
  }

  method RunScan(rs: Stream, extract: Json -> seq<int>) returns (res: Outcome)
    ensures res == ScanOutcome(rs, extract)
  {
    var total, overall := ScanLoop(rs.items, extract);
    var code := if rs.err.Some? || overall.None? then 1 else 0;
    return Outcome(code, total, 0, overall, None, rs.err);
  }

  method RunExport(rs: Stream, extract: Json -> seq<int>, start: Option<int>, end: Option<int>, limit: Option<int>) returns (res: Outcome)
    ensures res == ExportOutcome(rs, extract, start, end, limit)
  {
    var total, matched, overall, out := ExportLoop(rs.items, extract, start, end, limit);
    ghost var kept := Capped(Matching(rs.items, SelectedBy(extract, start, end)), limit);
    ArrayTextFrom(kept, rs.err.None?, out);
    if rs.err.None? {
      out := out + "\n]\n";
    } else {
      assert out + "" == out;
    }
    assert out == ArrayText(kept, rs.err.None?);
    return Outcome(if rs.err.Some? then 1 else 0, total, matched, overall, Some(out), rs.err);
  }

  method RunMain(o: Options, s: string, decode: string -> Option<Json>, fromIso: string -> Option<Wall>) returns (res: Outcome)
    ensures res == MainOutcome(o, s, decode, fromIso)
  {
    var w := WindowOf(o, fromIso);
    if w.start.Some? && w.end.Some? && w.end.value < w.start.value {
      return Outcome(2, 0, 0, None, None, None);
    }
    if o.mode == ExportMode && w.start.None? && w.end.None? {
      return Outcome(2, 0, 0, None, None, None);
    }
    var rs := ReadJsonRecords(s, o.recordsKey, decode);
    if o.mode == ScanMode {
      res := RunScan(rs, TimesOf(w, fromIso));
    } else {
      res := RunExport(rs, TimesOf(w, fromIso), w.start, w.end, o.limit);
    }
  }

  /** The export limit is never exceeded, every record read is counted, and
      the written file holds exactly the kept records. */
  lemma ExportKeepsWithinLimit(rs: Stream, extract: Json -> seq<int>, start: Option<int>, end: Option<int>, limit: Option<int>)
    ensures var res := ExportOutcome(rs, extract, start, end, limit);
      && res.total == |rs.items|
      && (limit.Some? ==> res.matched <= (if limit.value < 0 then 0 else limit.value))
      && res.matched <= res.total
      && (limit.None? ==> res.matched == |Matching(rs.items, SelectedBy(extract, start, end))|)
  {
    MatchingIsFilter(rs.items, SelectedBy(extract, start, end));
  }

  /** The exported file is a JSON array the top-level reader reads back as
      exactly the records in range, up to the limit, provided the read
      finished and the decoder inverts the encoder on those records. */
  lemma ExportReadsBack(s: string, recordsKey: Option<string>, w: Window, limit: Option<int>,
                        decode: string -> Option<Json>, fromIso: string -> Option<Wall>)
    requires JsonRecords(s, recordsKey, decode).err.None?
    requires var kept := Capped(Matching(JsonRecords(s, recordsKey, decode).items, SelectedBy(TimesOf(w, fromIso), w.start, w.end)), limit);
      forall k :: 0 <= k < |kept| ==> decode(Dumps(kept[k])) == Some(kept[k])
    ensures var kept := Capped(Matching(JsonRecords(s, recordsKey, decode).items, SelectedBy(TimesOf(w, fromIso), w.start, w.end)), limit);
      TopLevel(ArrayText(kept, true), true, decode) == Stream(kept, None)
  {
    var items := JsonRecords(s, recordsKey, decode).items;
    var m := Matching(items, SelectedBy(TimesOf(w, fromIso), w.start, w.end));
    var kept := Capped(m, limit);
    JsonRecordsYieldsDicts(s, recordsKey, decode);
    MatchingIsFilter(items, SelectedBy(TimesOf(w, fromIso), w.start, w.end));
    forall k | 0 <= k < |kept|
      ensures kept[k].JObj?
    {
      assert kept[k] == m[k];
      assert m[k] in items;
    }
    ArrayTextReadsBack(kept, true, decode);
  }
}
