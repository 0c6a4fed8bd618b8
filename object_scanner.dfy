/** The character-level record reader both location-history scripts use
    (`iter_top_level_array`, `iter_keyed_array`, `iter_ndjson`): a state
    machine over a brace depth, an "inside a string" flag and an "after a
    backslash" flag, which pulls one `{...}` slice at a time out of an array
    and hands it to the JSON decoder.

    The input file is the character sequence `s`; `fp.read(1)` at offset
    `i` is `s[i]`, and the end of `s` is end of file. `json.loads` is the
    parameter `decode`. */
module ObjectScanner {
  import opened Wrappers
  import opened Text
  import opened Json

  // ---------------------------------------------------------------------
  // The state machine
  // ---------------------------------------------------------------------

  /** `depth`, `in_str` and `esc` of the reader. */
  datatype ScanState = ScanState(depth: int, inStr: bool, esc: bool)

  const Outside := ScanState(0, false, false)

  /** The state right after the opening `{` of a record. */
  const Opened := ScanState(1, false, false)

  /** One character read. Inside a string a backslash escapes the next
      character and an unescaped quote ends the string; outside a string a
      quote starts one and braces move the depth. */
  function Step(st: ScanState, ch: char): ScanState {
    if st.inStr then
      if st.esc then st.(esc := false)
      else if ch == '\\' then st.(esc := true)
      else if ch == '"' then st.(inStr := false)
      else st
    else if ch == '"' then st.(inStr := true)
    else if ch == '{' then st.(depth := st.depth + 1)
    else if ch == '}' then st.(depth := st.depth - 1)
    else st
  }

  /** The state after reading all of `t`. */
  function Run(st: ScanState, t: string): ScanState
    decreases |t|
  {
    if t == [] then st else Run(Step(st, t[0]), t[1..])
  }

  /** Only a string can be waiting for an escaped character. */
  predicate Sane(st: ScanState) {
    st.esc ==> st.inStr
  }

  lemma {:induction false} RunConcat(st: ScanState, a: string, b: string)
    ensures Run(st, a + b) == Run(Run(st, a), b)
    decreases |a|
  {
    if a != [] {
      assert (a + b)[0] == a[0];
      assert (a + b)[1..] == a[1..] + b;
      RunConcat(Step(st, a[0]), a[1..], b);
    } else {
      assert a + b == b;
    }
  }

  lemma {:induction false} RunSane(st: ScanState, t: string)
    requires Sane(st)
    ensures Sane(Run(st, t))
    decreases |t|
  {
    if t != [] {
      RunSane(Step(st, t[0]), t[1..]);
    }
  }

  /** `t` leaves the state as it found it and never takes the depth below
      where it started. */
  ghost predicate Neutral(st: ScanState, t: string) {
    && Run(st, t) == st
    && forall k :: 0 <= k <= |t| ==> Run(st, t[..k]).depth >= st.depth
  }

  // ---------------------------------------------------------------------
  // Capturing one record
  // ---------------------------------------------------------------------

  /** The inner `while depth > 0` loop: reading on from offset `j` in state
      `st`, the offset just past the brace that closes the record, or `None`
      when the file ends first ("Unexpected EOF while reading an object"). */
  function CloseFrom(s: string, j: nat, st: ScanState): (r: Option<nat>)
    requires j <= |s|
    ensures r.Some? ==> j <= r.value <= |s|
    decreases |s| - j
  {
    if st.depth <= 0 then Some(j)
    else if j == |s| then None
    else CloseFrom(s, j + 1, Step(st, s[j]))
  }

  /** A balanced record slice: it opens with `{`, closes with `}`, the
      depth counted outside strings comes back to zero exactly at its last
      character and not before, and it does not end inside a string. */
  ghost predicate Balanced(t: string) {
    && |t| >= 2 && t[0] == '{' && t[|t| - 1] == '}'
    && Run(Outside, t) == Outside
    && forall k :: 1 <= k < |t| ==> Run(Outside, t[..k]).depth > 0
  }

  /** Reading one more character of a slice is one more step. */
  lemma RunSnoc(s: string, i: nat, j: nat)
    requires i <= j < |s|
    ensures Run(Outside, s[i..j + 1]) == Step(Run(Outside, s[i..j]), s[j])
  {
    assert s[i..j + 1] == s[i..j] + [s[j]];
    RunConcat(Outside, s[i..j], [s[j]]);
  }

  /** The only step that takes a positive depth to zero is a closing brace
      outside a string, and it leaves the reader outside everything. */
  lemma CloseStep(st: ScanState, ch: char)
    requires Sane(st) && st.depth > 0
    requires Step(st, ch).depth <= 0
    ensures ch == '}' && Step(st, ch) == Outside
  {
  }

  lemma {:induction false} CloseFromFacts(s: string, i: nat, j: nat)
    requires i < j <= |s|
    requires forall k :: i < k <= j ==> Run(Outside, s[i..k]).depth > 0
    requires CloseFrom(s, j, Run(Outside, s[i..j])).Some?
    ensures var e := CloseFrom(s, j, Run(Outside, s[i..j])).value;
      && j < e && s[e - 1] == '}' && Run(Outside, s[i..e]) == Outside
      && forall k :: i < k < e ==> Run(Outside, s[i..k]).depth > 0
    decreases |s| - j
  {
    var st := Run(Outside, s[i..j]);
    assert st.depth > 0 && j < |s|;
    RunSnoc(s, i, j);
    var st' := Step(st, s[j]);
    assert CloseFrom(s, j, st) == CloseFrom(s, j + 1, st');
    if st'.depth <= 0 {
      assert CloseFrom(s, j, st).value == j + 1;
      RunSane(Outside, s[i..j]);
      CloseStep(st, s[j]);
    } else {
      CloseFromFacts(s, i, j + 1);
    }
  }

  /** A slice from a `{` to a `}` that the reader enters at depth one,
      leaves at depth zero and never leaves earlier is balanced. */
  lemma BalancedSlice(s: string, i: nat, e: nat)
    requires i + 1 < e <= |s| && s[i] == '{' && s[e - 1] == '}'
    requires Run(Outside, s[i..e]) == Outside
    requires forall k :: i < k < e ==> Run(Outside, s[i..k]).depth > 0
    ensures Balanced(s[i..e])
  {
    var t := s[i..e];
    forall k | 1 <= k < |t|
      ensures Run(Outside, t[..k]).depth > 0
    {
      assert t[..k] == s[i..i + k];
    }
  }

  /** Each captured record is exactly a balanced `{...}` slice. */
  lemma CaptureIsBalanced(s: string, i: nat)
    requires i < |s| && s[i] == '{'
    requires CloseFrom(s, i + 1, Opened).Some?
    ensures Balanced(s[i..CloseFrom(s, i + 1, Opened).value])
  {
    var e := CloseFrom(s, i + 1, Opened).value;
    assert && i + 1 < e && s[e - 1] == '}' && Run(Outside, s[i..e]) == Outside
           && forall k :: i < k < e ==> Run(Outside, s[i..k]).depth > 0 by {
      assert s[i..i + 1] == [s[i]];
      assert Run(Outside, s[i..i + 1]) == Opened;
      CloseFromFacts(s, i, i + 1);
    }
    BalancedSlice(s, i, e);
  }

  /** The capture loop of the readers: starting at the `{` at
      offset `start`, the end of the record, or `None` at end of file. */
  method CaptureObject(s: string, start: nat) returns (e: Option<nat>)
    requires start < |s| && s[start] == '{'
    ensures e == CloseFrom(s, start + 1, Opened)
    ensures e.Some? ==> start < e.value && Balanced(s[start..e.value])
  {
    var depth, inStr, esc := 1, false, false;
    var j := start + 1;
    while depth > 0
      invariant start < j <= |s|
      invariant CloseFrom(s, start + 1, Opened) == CloseFrom(s, j, ScanState(depth, inStr, esc))
      decreases |s| - j
    {
      if j == |s| {
        return None;
      }
      var ch := s[j];
      j := j + 1;
      if inStr {
        if esc {
          esc := false;
        } else if ch == '\\' {
          esc := true;
        } else if ch == '"' {
          inStr := false;
        }
        continue;
      }
      if ch == '"' {
        inStr := true;
      } else if ch == '{' {
        depth := depth + 1;
      } else if ch == '}' {
        depth := depth - 1;
      }
    }
    e := Some(j);
    CaptureIsBalanced(s, start);
  }

  // ---------------------------------------------------------------------
  // Strings (section 7 of RFC 8259)
  // ---------------------------------------------------------------------

  /** The characters between the quotes of a string: unescaped characters
      other than a quote and a backslash, and backslash escapes. */
  predicate StringBody(b: string)
    decreases |b|
  {
    if b == [] then true
    else if b[0] == '\\' then |b| >= 2 && StringBody(b[2..])
    else b[0] != '"' && StringBody(b[1..])
  }

  lemma {:induction false} StringBodyConcat(a: string, b: string)
    requires StringBody(a) && StringBody(b)
    ensures StringBody(a + b)
    decreases |a|
  {
    if a != [] {
      assert (a + b)[0] == a[0];
      if a[0] == '\\' {
        assert (a + b)[2..] == a[2..] + b;
        StringBodyConcat(a[2..], b);
      } else {
        assert (a + b)[1..] == a[1..] + b;
        StringBodyConcat(a[1..], b);
      }
    } else {
      assert a + b == b;
    }
  }

  /** Inside a string, a string body keeps the reader inside the string at
      the same depth, whatever braces it contains. */
  lemma {:induction false} StringBodyRun(st: ScanState, b: string)
    requires st.inStr && !st.esc && StringBody(b)
    ensures Run(st, b) == st
    ensures forall k :: 0 <= k <= |b| ==> Run(st, b[..k]).depth == st.depth && Run(st, b[..k]).inStr
    decreases |b|
  {
    if b != [] {
      if b[0] == '\\' {
        var st1 := Step(st, b[0]);
        assert Step(st1, b[1]) == st;
        assert Run(st, b) == Run(st, b[2..]) by {
          assert b[1..][1..] == b[2..];
        }
        StringBodyRun(st, b[2..]);
        forall k | 0 <= k <= |b|
          ensures Run(st, b[..k]).depth == st.depth && Run(st, b[..k]).inStr
        {
          if k >= 2 {
            assert b[..k][1..][1..] == b[2..][..k - 2];
          } else if k == 1 {
            assert b[..k][1..] == [];
          }
        }
      } else {
        assert Step(st, b[0]) == st;
        StringBodyRun(st, b[1..]);
        forall k | 0 <= k <= |b|
          ensures Run(st, b[..k]).depth == st.depth && Run(st, b[..k]).inStr
        {
          if k >= 1 {
            assert b[..k][1..] == b[1..][..k - 1];
          }
        }
      }
    }
  }

  /** A complete string token leaves the depth where it was: braces inside
      quoted text never move it. */
  lemma QuotedIsNeutral(st: ScanState, b: string)
    requires !st.inStr && !st.esc && StringBody(b)
    ensures Neutral(st, "\"" + b + "\"")
  {
    var t := "\"" + b + "\"";
    var st1 := st.(inStr := true);
    assert Step(st, '"') == st1;
    StringBodyRun(st1, b);
    assert t[1..] == b + "\"";
    RunConcat(st1, b, "\"");
    forall k | 0 <= k <= |t|
      ensures Run(st, t[..k]).depth >= st.depth
    {
      if 1 <= k <= |b| + 1 {
        assert t[..k][1..] == b[..k - 1];
      } else if k == |t| {
        assert t[..k] == t;
      }
    }
  }

  // ---------------------------------------------------------------------
  // What json.dumps writes keeps the reader in step
  // ---------------------------------------------------------------------

  lemma {:induction false} NeutralConcat(st: ScanState, a: string, b: string)
    requires Neutral(st, a) && Neutral(st, b)
    ensures Neutral(st, a + b)
  {
    RunConcat(st, a, b);
    forall k | 0 <= k <= |a + b|
      ensures Run(st, (a + b)[..k]).depth >= st.depth
    {
      if k <= |a| {
        assert (a + b)[..k] == a[..k];
      } else {
        assert (a + b)[..k] == a + b[..k - |a|];
        RunConcat(st, a, b[..k - |a|]);
      }
    }
  }

  /** Text without quotes and braces. */
  predicate Plain(t: string) {
    forall i :: 0 <= i < |t| ==> t[i] != '"' && t[i] != '{' && t[i] != '}'
  }

  lemma {:induction false} PlainIsNeutral(st: ScanState, t: string)
    requires !st.inStr && Plain(t)
    ensures Neutral(st, t)
    ensures forall k :: 0 <= k <= |t| ==> Run(st, t[..k]) == st
    decreases |t|
  {
    if t != [] {
      assert Step(st, t[0]) == st;
      PlainIsNeutral(st, t[1..]);
      forall k | 0 <= k <= |t|
        ensures Run(st, t[..k]) == st
      {
        if k >= 1 {
          assert t[..k][1..] == t[1..][..k - 1];
        }
      }
    }
  }

  lemma {:induction false} EscapeIsStringBody(s: string)
    ensures StringBody(Escape(s))
    decreases |s|
  {
    if s != [] {
      var c := s[0];
      var e := EscapeChar(c);
      EscapeCharIsStringBody(c);
      EscapeIsStringBody(s[1..]);
      StringBodyConcat(e, Escape(s[1..]));
    }
  }

  lemma {:induction false} PlainIsStringBody(t: string)
    requires forall i :: 0 <= i < |t| ==> t[i] != '"' && t[i] != '\\'
    ensures StringBody(t)
    decreases |t|
  {
    if t != [] {
      PlainIsStringBody(t[1..]);
    }
  }

  lemma EscapeCharIsStringBody(c: char)
    ensures StringBody(EscapeChar(c))
  {
    var e := EscapeChar(c);
    if c == '"' || c == '\\' || c == '\n' || c == '\r' || c == '\t' || c == '\U{8}' || c == '\U{c}' {
      assert e[0] == '\\' && |e| == 2;
    } else if c < ' ' {
      var h := [HexDigitChar(c as int / 16), HexDigitChar(c as int % 16)];
      assert e == "\\u00" + h;
      PlainIsStringBody(e[2..]);
    } else {
      assert e == [c];
    }
  }

  lemma QuoteIsNeutral(st: ScanState, s: string)
    requires !st.inStr && !st.esc
    ensures Neutral(st, Quote(s))
  {
    EscapeIsStringBody(s);
    QuotedIsNeutral(st, Escape(s));
  }

  lemma {:induction false} IntToStringIsPlain(n: int)
    ensures Plain(IntToString(n))
  {
    var d := NatToString(if n < 0 then -n else n);
    assert forall i :: 0 <= i < |d| ==> IsDigit(d[i]);
  }

  /** Wrapping neutral text in braces: the depth is one higher strictly
      inside and back where it was at the end. */
  lemma {:induction false} BracedIsNeutral(st: ScanState, inner: string)
    requires !st.inStr && !st.esc
    requires Neutral(st.(depth := st.depth + 1), inner)
    ensures Neutral(st, "{" + inner + "}")
    ensures forall k :: 1 <= k <= |inner| + 1 ==> Run(st, ("{" + inner + "}")[..k]).depth > st.depth
  {
    var t := "{" + inner + "}";
    var st1 := st.(depth := st.depth + 1);
    assert t[1..] == inner + "}";
    RunConcat(st1, inner, "}");
    forall k | 0 <= k <= |t|
      ensures Run(st, t[..k]).depth >= st.depth
      ensures 1 <= k <= |inner| + 1 ==> Run(st, t[..k]).depth > st.depth
    {
      if 1 <= k <= |inner| + 1 {
        assert t[..k][1..] == inner[..k - 1];
      } else if k == |t| {
        assert t[..k] == t;
      }
    }
  }

  lemma {:induction false} DumpsIsNeutral(st: ScanState, j: Json)
    requires !st.inStr && !st.esc
    ensures Neutral(st, Dumps(j))
    decreases j
  {
    match j
    case JNull =>
      PlainIsNeutral(st, "null");
    case JBool(b) =>
      PlainIsNeutral(st, if b then "true" else "false");
    case JNum(n) =>
      IntToStringIsPlain(n);
      PlainIsNeutral(st, IntToString(n));
    case JStr(s) =>
      QuoteIsNeutral(st, s);
    case JArr(xs) =>
      PlainIsNeutral(st, "[");
      PlainIsNeutral(st, "]");
      DumpsItemsIsNeutral(st, xs);
      NeutralConcat(st, "[", DumpsItems(xs));
      NeutralConcat(st, "[" + DumpsItems(xs), "]");
    case JObj(fs) =>
      DumpsFieldsIsNeutral(st.(depth := st.depth + 1), fs);
      BracedIsNeutral(st, DumpsFields(fs));
  }

  lemma {:induction false} DumpsItemsIsNeutral(st: ScanState, xs: seq<Json>)
    requires !st.inStr && !st.esc
    ensures Neutral(st, DumpsItems(xs))
    decreases xs
  {
    if xs == [] {
      PlainIsNeutral(st, []);
    } else if |xs| == 1 {
      DumpsIsNeutral(st, xs[0]);
    } else {
      DumpsIsNeutral(st, xs[0]);
      PlainIsNeutral(st, ", ");
      DumpsItemsIsNeutral(st, xs[1..]);
      NeutralConcat(st, Dumps(xs[0]), ", ");
      NeutralConcat(st, Dumps(xs[0]) + ", ", DumpsItems(xs[1..]));
    }
  }

  lemma {:induction false} DumpsFieldIsNeutral(st: ScanState, f: Field)
    requires !st.inStr && !st.esc
    ensures Neutral(st, DumpsField(f))
    decreases f
  {
    QuoteIsNeutral(st, f.key);
    PlainIsNeutral(st, ": ");
    DumpsIsNeutral(st, f.value);
    NeutralConcat(st, Quote(f.key), ": ");
    NeutralConcat(st, Quote(f.key) + ": ", Dumps(f.value));
  }

  lemma {:induction false} DumpsFieldsIsNeutral(st: ScanState, fs: seq<Field>)
    requires !st.inStr && !st.esc
    ensures Neutral(st, DumpsFields(fs))
    decreases fs
  {
    if fs == [] {
      PlainIsNeutral(st, []);
    } else if |fs| == 1 {
      DumpsFieldIsNeutral(st, fs[0]);
    } else {
      DumpsFieldIsNeutral(st, fs[0]);
      PlainIsNeutral(st, ", ");
      DumpsFieldsIsNeutral(st, fs[1..]);
      NeutralConcat(st, DumpsField(fs[0]), ", ");
      NeutralConcat(st, DumpsField(fs[0]) + ", ", DumpsFields(fs[1..]));
    }
  }

  /** Reading on through text during which the depth stays positive does
      not stop the capture loop. */
  lemma {:induction false} CloseFromSkips(s: string, j: nat, st: ScanState, t: string)
    requires j + |t| <= |s| && s[j..j + |t|] == t
    requires forall k :: 0 <= k < |t| ==> Run(st, t[..k]).depth > 0
    ensures CloseFrom(s, j, st) == CloseFrom(s, j + |t|, Run(st, t))
    decreases |t|
  {
    if t != [] {
      assert t[..0] == [];
      assert s[j] == t[0];
      var st1 := Step(st, t[0]);
      forall k | 0 <= k < |t| - 1
        ensures Run(st1, t[1..][..k]).depth > 0
      {
        assert t[..k + 1][1..] == t[1..][..k];
      }
      assert s[j + 1..j + |t|] == t[1..];
      CloseFromSkips(s, j + 1, st1, t[1..]);
    }
  }

  /** The text `json.dumps` writes for an object is a balanced slice. */
  lemma DumpedObjectIsBalanced(x: Json)
    requires x.JObj?
    ensures Balanced(Dumps(x))
  {
    var inner := DumpsFields(x.fields);
    var t := Dumps(x);
    assert t == "{" + inner + "}";
    DumpsFieldsIsNeutral(Opened, x.fields);
    BracedIsNeutral(Outside, inner);
  }

  /** The converse of `CaptureIsBalanced`: the capture loop started on the
      `{` of a balanced slice stops right after its closing `}`. */
  lemma BalancedIsCaptured(s: string, p: nat, t: string)
    requires Balanced(t)
    requires p + |t| <= |s| && s[p..p + |t|] == t
    ensures s[p] == '{' && CloseFrom(s, p + 1, Opened) == Some(p + |t|)
  {
    assert s[p] == t[0];
    var body := t[1..];
    assert t == [t[0]] + body;
    assert Run(Outside, t) == Run(Opened, body);
    forall k | 0 <= k < |body|
      ensures Run(Opened, body[..k]).depth > 0
    {
      assert t[..k + 1] == [t[0]] + body[..k];
      assert Run(Outside, t[..k + 1]) == Run(Opened, body[..k]);
    }
    assert s[p + 1..p + |t|] == body;
    CloseFromSkips(s, p + 1, Opened, body);
  }

  // ---------------------------------------------------------------------
  // The array reader
  // ---------------------------------------------------------------------

  /** The exceptions that end a read. */
  datatype ReadError =
    | NotAnArray              // the first non-blank character is not `[`
    | UnexpectedEof           // the file ends inside a record
    | DecodeFailed            // the decoder rejects a captured record
    | KeyNotFound             // the quoted key never occurs
    | NoArrayAfterKey         // no `[` after the key
    | NdjsonParse(line: nat)  // the decoder rejects this (1-based) line
    | NotNdjson(cause: ReadError)  // an NDJSON error, re-raised as "not NDJSON"
    | Unrecognized            // neither `[` nor `{` comes first, and no key is given
    | ArrayRequired           // no key is given and the input is not an array

  /** What a reader yields: the records, in order, up to the error that
      ended it (if any). */
  datatype Stream = Stream(items: seq<Json>, err: Option<ReadError>)

  function Prepend(items: seq<Json>, rest: Stream): Stream {
    Stream(items + rest.items, rest.err)
  }

  /** The outer loop of the array readers, from offset `i` with top-level
      string state `top`: white space and commas are skipped, a `{` starts a
      record which is captured, decoded and yielded when it is a dict, `]`
      or end of file ends the array, and every other character is ignored.
      With `topStrings`, a quoted string between records is read over as a
      string (subset_location_history.py's top-level reader); without it a
      quote is just an ignored character. */
  function ScanBody(s: string, i: nat, top: ScanState, topStrings: bool, decode: string -> Option<Json>): Stream
    requires i <= |s|
    decreases |s| - i
  {
    if i == |s| then Stream([], None)
    else
      var ch := s[i];
      if top.inStr then ScanBody(s, i + 1, Step(top, ch), topStrings, decode)
      else if IsSpace(ch) || ch == ',' then ScanBody(s, i + 1, top, topStrings, decode)
      else if topStrings && ch == '"' then ScanBody(s, i + 1, Step(top, ch), topStrings, decode)
      else if ch == '{' then
        match CloseFrom(s, i + 1, Opened)
        case None => Stream([], Some(UnexpectedEof))
        case Some(e) =>
          match decode(s[i..e])
          case None => Stream([], Some(DecodeFailed))
          case Some(v) =>
            var rest := ScanBody(s, e, Outside, topStrings, decode);
            if v.JObj? then Prepend([v], rest) else rest
      else if ch == ']' then Stream([], None)
      else ScanBody(s, i + 1, top, topStrings, decode)
  }

  /** The reading loop after the opening `[`. */
  method ReadArrayBody(s: string, i0: nat, topStrings: bool, decode: string -> Option<Json>) returns (r: Stream)
    requires i0 <= |s|
    ensures r == ScanBody(s, i0, Outside, topStrings, decode)
  {
    var items: seq<Json> := [];
    var i := i0;
    var inStr, esc := false, false;
    while true
      invariant i <= |s|
      invariant Sane(ScanState(0, inStr, esc))
      invariant topStrings || !inStr
      invariant ScanBody(s, i0, Outside, topStrings, decode) == Prepend(items, ScanBody(s, i, ScanState(0, inStr, esc), topStrings, decode))
      decreases |s| - i
    {
      if i == |s| {
        return Stream(items, None);
      }
      var ch := s[i];
      i := i + 1;
      if inStr {
        if esc {
          esc := false;
        } else if ch == '\\' {
          esc := true;
        } else if ch == '"' {
          inStr := false;
        }
        continue;
      }
      if IsSpace(ch) || ch == ',' {
        continue;
      }
      if topStrings && ch == '"' {
        inStr := true;
        continue;
      }
      if ch == '{' {
        var start := i - 1;
        var e := CaptureObject(s, start);
        if e.None? {
          return Stream(items, Some(UnexpectedEof));
        }
        var v := decode(s[start..e.value]);
        if v.None? {
          return Stream(items, Some(DecodeFailed));
        }
        ghost var rest := ScanBody(s, e.value, Outside, topStrings, decode);
        assert ScanBody(s, start, ScanState(0, inStr, esc), topStrings, decode)
            == if v.value.JObj? then Prepend([v.value], rest) else rest;
        i := e.value;
        if v.value.JObj? {
          PrependAssoc(items, [v.value], rest);
          items := items + [v.value];
        }
        continue;
      }
      if ch == ']' {
        return Stream(items, None);
      }
    }
  }

  predicate AllDicts(xs: seq<Json>) {
    forall k :: 0 <= k < |xs| ==> xs[k].JObj?
  }

  /** Every record a reader yields is a dict. */
  lemma {:induction false} ScanBodyYieldsDicts(s: string, i: nat, top: ScanState, topStrings: bool, decode: string -> Option<Json>)
    requires i <= |s|
    ensures AllDicts(ScanBody(s, i, top, topStrings, decode).items)
    decreases |s| - i
  {
    if i < |s| {
      var ch := s[i];
      if top.inStr || (topStrings && ch == '"' && !(IsSpace(ch) || ch == ',')) {
        ScanBodyYieldsDicts(s, i + 1, Step(top, ch), topStrings, decode);
      } else if IsSpace(ch) || ch == ',' {
        assert ScanBody(s, i, top, topStrings, decode) == ScanBody(s, i + 1, top, topStrings, decode);
        ScanBodyYieldsDicts(s, i + 1, top, topStrings, decode);
      } else if ch == '{' {
        var e := CloseFrom(s, i + 1, Opened);
        if e.Some? {
          ScanBodyYieldsDicts(s, e.value, Outside, topStrings, decode);
          var rest := ScanBody(s, e.value, Outside, topStrings, decode);
          var d := decode(s[i..e.value]);
          if d.Some? && d.value.JObj? {
            assert ScanBody(s, i, top, topStrings, decode) == Prepend([d.value], rest);
          }
        }
      } else if ch != ']' {
        assert ScanBody(s, i, top, topStrings, decode) == ScanBody(s, i + 1, top, topStrings, decode);
        ScanBodyYieldsDicts(s, i + 1, top, topStrings, decode);
      }
    }
  }

  // ---------------------------------------------------------------------
  // The top-level array reader
  // ---------------------------------------------------------------------

  /** `iter_top_level_array`: white space, a `[`, then the array body. */
  function TopLevel(s: string, topStrings: bool, decode: string -> Option<Json>): Stream {
    var i := LeadingSpace(s);
    if i < |s| && s[i] == '[' then ScanBody(s, i + 1, Outside, topStrings, decode)
    else Stream([], Some(NotAnArray))
  }

  /** The offset of the first non-blank character (the readers' "peek"). */
  method SkipSpace(s: string) returns (i: nat)
    ensures i == LeadingSpace(s)
  {
    i := 0;
    while i < |s| && IsSpace(s[i])
      invariant i <= |s| && AllSpace(s[..i])
    {
      assert s[..i + 1] == s[..i] + [s[i]];
      i := i + 1;
    }
    LeadingSpaceUnique(s, i);
  }

  method ReadTopLevelArray(s: string, topStrings: bool, decode: string -> Option<Json>) returns (r: Stream)
    ensures r == TopLevel(s, topStrings, decode)
  {
    var i := SkipSpace(s);
    if i == |s| || s[i] != '[' {
      return Stream([], Some(NotAnArray));
    }
    r := ReadArrayBody(s, i + 1, topStrings, decode);
  }

  // ---------------------------------------------------------------------
  // The keyed array reader
  // ---------------------------------------------------------------------

  /** The first `m` characters of `s` end with `needle`, character by
      character. */
  predicate EndsAt(s: string, needle: string, m: nat) {
    |needle| <= m <= |s| && forall j :: 0 <= j < |needle| ==> s[m - |needle| + j] == needle[j]
  }

  lemma EndsAtIsEndsWith(s: string, needle: string, m: nat)
    requires m <= |s|
    ensures EndsAt(s, needle, m) <==> EndsWith(s[..m], needle)
  {
    if |needle| <= m {
      var tail := s[..m][m - |needle|..];
      assert forall j :: 0 <= j < |needle| ==> tail[j] == s[m - |needle| + j];
    }
  }

  /** The least `j` at or after `from` such that the first `j` characters
      of `s` end with `needle`: where a reader that checks after every
      character first sees the needle. */
  function KeyEndFrom(s: string, needle: string, from: nat): Option<nat>
    decreases |s| + 1 - from
  {
    if from > |s| then None
    else if EndsAt(s, needle, from) then Some(from)
    else KeyEndFrom(s, needle, from + 1)
  }

  lemma {:induction false} KeyEndIsFirstMatch(s: string, needle: string, from: nat)
    requires from <= |s| + 1
    ensures var r := KeyEndFrom(s, needle, from);
      && (r.Some? ==> from <= r.value <= |s| && EndsAt(s, needle, r.value)
                      && forall m :: from <= m < r.value ==> !EndsAt(s, needle, m))
      && (r.None? ==> forall m :: from <= m <= |s| ==> !EndsAt(s, needle, m))
    decreases |s| + 1 - from
  {
    if from <= |s| && !EndsAt(s, needle, from) {
      KeyEndIsFirstMatch(s, needle, from + 1);
    }
  }

  /** The last `width` of the first `i` characters, or all of them when
      fewer were read: what the key search keeps. */
  function Window(s: string, i: nat, width: nat): (w: string)
    requires i <= |s|
    ensures |w| == (if i < width then i else width)
    ensures forall j :: 0 <= j < |w| ==> w[j] == s[i - |w| + j]
  {
    if i < width then s[..i] else s[i - width..i]
  }

  /** A needle found in the window ends the text read up to its last
      character. */
  lemma WindowHit(s: string, needle: string, width: nat, i: nat, k: nat)
    requires i <= |s| && OccursAt(Window(s, i, width), needle, k)
    ensures var m := i - |Window(s, i, width)| + k + |needle|;
      m <= i && EndsAt(s, needle, m)
  {
    var window := Window(s, i, width);
    forall j | 0 <= j < |needle|
      ensures s[i - |window| + k + j] == needle[j]
    {
      assert needle[j] == window[k..k + |needle|][j] == window[k + j];
    }
  }

  /** A needle no longer than the window that ends the text read so far
      lies at the end of the window. */
  lemma WindowCatch(s: string, needle: string, width: nat, i: nat)
    requires |needle| <= width && i <= |s| && EndsAt(s, needle, i)
    ensures OccursAt(Window(s, i, width), needle, |Window(s, i, width)| - |needle|)
  {
    var window := Window(s, i, width);
    var k := |window| - |needle|;
    forall j | 0 <= j < |needle|
      ensures window[k..k + |needle|][j] == needle[j]
    {
      assert window[k + j] == s[i - |needle| + j];
    }
    assert window[k..k + |needle|] == needle;
  }

  /** The sliding window of the key search: when the needle was not seen
      earlier, it is in the window exactly when the text read so far ends
      with it. */
  lemma WindowSearch(s: string, needle: string, width: nat, i: nat)
    requires 0 < |needle| <= width
    requires i <= |s|
    requires forall m :: 0 <= m < i ==> !EndsAt(s, needle, m)
    ensures Contains(Window(s, i, width), needle) <==> EndsAt(s, needle, i)
  {
    var window := Window(s, i, width);
    if Contains(window, needle) {
      var k :| 0 <= k <= |window| - |needle| && OccursAt(window, needle, k);
      WindowHit(s, needle, width, i, k);
    }
    if EndsAt(s, needle, i) {
      WindowCatch(s, needle, width, i);
    }
  }

  /** Reading one more character and dropping the oldest one once the
      window is full gives the window one character further on. */
  lemma WindowSlide(s: string, width: nat, i: nat)
    requires i < |s|
    ensures var w := Window(s, i, width) + [s[i]];
      Window(s, i + 1, width) == if |w| > width then w[|w| - width..] else w
  {
    var window := Window(s, i, width);
    var w := window + [s[i]];
    var next := if |w| > width then w[|w| - width..] else w;
    var v := Window(s, i + 1, width);
    assert |next| == |v|;
    forall j | 0 <= j < |v|
      ensures next[j] == v[j]
    {
      var d := |w| - |next|;
      assert next[j] == w[d + j];
    }
  }

  /** One step of the key search: the slid window is the window one
      character further on, and finding the needle in it is finding the
      first place the text read so far ends with the needle. */
  lemma FindKeyStep(s: string, needle: string, width: nat, i: nat)
    requires 0 < |needle| <= width && i < |s|
    requires KeyEndFrom(s, needle, 0) == KeyEndFrom(s, needle, i + 1)
    ensures var w := Window(s, i, width) + [s[i]];
      var next := if |w| > width then w[|w| - width..] else w;
      && next == Window(s, i + 1, width)
      && (Contains(next, needle) ==> KeyEndFrom(s, needle, 0) == Some(i + 1))
      && (!Contains(next, needle) ==> KeyEndFrom(s, needle, 0) == KeyEndFrom(s, needle, i + 2))
  {
    WindowSlide(s, width, i);
    NoEarlierKey(s, needle, i + 1);
    WindowSearch(s, needle, width, i + 1);
    KeyEndStep(s, needle, i + 1);
  }

  /** While the search has not found the needle, no earlier prefix ends
      with it. */
  lemma NoEarlierKey(s: string, needle: string, from: nat)
    requires from <= |s| + 1
    requires KeyEndFrom(s, needle, 0) == KeyEndFrom(s, needle, from)
    ensures forall m :: 0 <= m < from ==> !EndsAt(s, needle, m)
  {
    KeyEndIsFirstMatch(s, needle, 0);
    KeyEndIsFirstMatch(s, needle, from);
  }

  /** `KeyEndFrom` one offset at a time. */
  lemma KeyEndStep(s: string, needle: string, from: nat)
    requires from <= |s|
    ensures EndsAt(s, needle, from) ==> KeyEndFrom(s, needle, from) == Some(from)
    ensures !EndsAt(s, needle, from) ==> KeyEndFrom(s, needle, from) == KeyEndFrom(s, needle, from + 1)
  {
  }

  /** The key search of `iter_keyed_array`: reads one character at a time,
      keeps the last `width` characters, and stops as soon as the needle is
      among them. */
  method FindKey(s: string, needle: string, width: nat) returns (p: Option<nat>)
    requires 0 < |needle| <= width
    ensures p == KeyEndFrom(s, needle, 0)
  {
    var window: string := [];
    var i := 0;
    while true
      invariant i <= |s|
      invariant window == Window(s, i, width)
      invariant KeyEndFrom(s, needle, 0) == KeyEndFrom(s, needle, i + 1)
      decreases |s| - i
    {
      if i == |s| {
        return None;
      }
      var w := window + [s[i]];
      FindKeyStep(s, needle, width, i);
      i := i + 1;
      window := if |w| > width then w[|w| - width..] else w;
      if Contains(window, needle) {
        return Some(i);
      }
    }
  }

  /** The first offset at or after `from` holding `c`. */
  function NextFrom(s: string, from: nat, c: char): (r: Option<nat>)
    ensures r.Some? ==> from <= r.value < |s| && s[r.value] == c
    ensures r.Some? ==> forall m :: from <= m < r.value ==> s[m] != c
    ensures r.None? ==> forall m :: from <= m < |s| ==> s[m] != c
    decreases |s| - from
  {
    if from >= |s| then None
    else if s[from] == c then Some(from)
    else NextFrom(s, from + 1, c)
  }

  /** `iter_keyed_array`: the array body after the first `[` that follows
      the first occurrence of the quoted key. */
  function Keyed(s: string, key: string, decode: string -> Option<Json>): Stream {
    match KeyEndFrom(s, "\"" + key + "\"", 0)
    case None => Stream([], Some(KeyNotFound))
    case Some(e) =>
      match NextFrom(s, e, '[')
      case None => Stream([], Some(NoArrayAfterKey))
      case Some(b) => ScanBody(s, b + 1, Outside, false, decode)
  }

  /** The keyed reader with a window of at least `minWidth` characters and
      at least `slack` more than the needle: whatever the window size, it
      reads the same records. */
  method ReadKeyedArray(s: string, key: string, minWidth: nat, slack: nat, decode: string -> Option<Json>) returns (r: Stream)
    ensures r == Keyed(s, key, decode)
  {
    var needle := "\"" + key + "\"";
    var width := if minWidth > |needle| + slack then minWidth else |needle| + slack;
    var e := FindKey(s, needle, width);
    KeyEndIsFirstMatch(s, needle, 0);
    if e.None? {
      return Stream([], Some(KeyNotFound));
    }
    var b := e.value;
    while b < |s| && s[b] != '['
      invariant e.value <= b <= |s|
      invariant NextFrom(s, e.value, '[') == NextFrom(s, b, '[')
      decreases |s| - b
    {
      b := b + 1;
    }
    if b == |s| {
      return Stream([], Some(NoArrayAfterKey));
    }
    r := ReadArrayBody(s, b + 1, false, decode);
  }

  // ---------------------------------------------------------------------
  // Reading back what the scripts write
  // ---------------------------------------------------------------------

  function DumpsAll(xs: seq<Json>): (r: seq<string>)
    ensures |r| == |xs|
    ensures forall k :: 0 <= k < |xs| ==> r[k] == Dumps(xs[k])
  {
    if xs == [] then [] else [Dumps(xs[0])] + DumpsAll(xs[1..])
  }

  /** The text both scripts write: `[` and a newline, the records separated
      by a comma and a newline, then (unless the read stopped on an error)
      a newline, `]` and a newline. */
  function ArrayText(kept: seq<Json>, closed: bool): string {
    "[\n" + Join(",\n", DumpsAll(kept)) + (if closed then "\n]\n" else "")
  }

  /** Text the array reader skips between records. */
  predicate Separator(t: string) {
    forall k :: 0 <= k < |t| ==> IsSpace(t[k]) || t[k] == ','
  }

  lemma {:induction false} SkipSeparators(s: string, p: nat, q: nat, topStrings: bool, decode: string -> Option<Json>)
    requires p <= q <= |s| && Separator(s[p..q])
    ensures ScanBody(s, p, Outside, topStrings, decode) == ScanBody(s, q, Outside, topStrings, decode)
    decreases q - p
  {
    if p < q {
      assert s[p..q][0] == s[p];
      assert s[p + 1..q] == s[p..q][1..];
      SkipSeparators(s, p + 1, q, topStrings, decode);
    }
  }

  /** A record written by `json.dump` is read back as itself, provided the
      decoder inverts the encoder on it. */
  lemma ScanDumpedObject(s: string, p: nat, x: Json, topStrings: bool, decode: string -> Option<Json>)
    requires x.JObj? && decode(Dumps(x)) == Some(x)
    requires p + |Dumps(x)| <= |s| && s[p..p + |Dumps(x)|] == Dumps(x)
    ensures ScanBody(s, p, Outside, topStrings, decode)
         == Prepend([x], ScanBody(s, p + |Dumps(x)|, Outside, topStrings, decode))
  {
    DumpedObjectIsBalanced(x);
    BalancedIsCaptured(s, p, Dumps(x));
  }

  lemma PrependAssoc(a: seq<Json>, b: seq<Json>, r: Stream)
    ensures Prepend(a, Prepend(b, r)) == Prepend(a + b, r)
  {
    assert a + (b + r.items) == (a + b) + r.items;
  }

  lemma SplitSlice(s: string, p: nat, a: string, b: string)
    requires p + |a + b| <= |s| && s[p..p + |a + b|] == a + b
    ensures s[p..p + |a|] == a && s[p + |a|..p + |a| + |b|] == b
  {
    assert s[p..p + |a|] == s[p..p + |a + b|][..|a|];
    assert s[p + |a|..p + |a| + |b|] == s[p..p + |a + b|][|a|..];
  }

  lemma ScanObjectThenSeparator(s: string, p: nat, x: Json, sep: string, topStrings: bool, decode: string -> Option<Json>)
    requires x.JObj? && decode(Dumps(x)) == Some(x) && Separator(sep)
    requires p + |Dumps(x) + sep| <= |s| && s[p..p + |Dumps(x) + sep|] == Dumps(x) + sep
    ensures ScanBody(s, p, Outside, topStrings, decode)
         == Prepend([x], ScanBody(s, p + |Dumps(x)| + |sep|, Outside, topStrings, decode))
  {
    SplitSlice(s, p, Dumps(x), sep);
    ScanDumpedObject(s, p, x, topStrings, decode);
    SkipSeparators(s, p + |Dumps(x)|, p + |Dumps(x)| + |sep|, topStrings, decode);
  }

  lemma TopLevelYieldsDicts(s: string, topStrings: bool, decode: string -> Option<Json>)
    ensures AllDicts(TopLevel(s, topStrings, decode).items)
  {
    var i := LeadingSpace(s);
    if i < |s| && s[i] == '[' {
      ScanBodyYieldsDicts(s, i + 1, Outside, topStrings, decode);
    }
  }

  lemma KeyedYieldsDicts(s: string, key: string, decode: string -> Option<Json>)
    ensures AllDicts(Keyed(s, key, decode).items)
  {
    var e := KeyEndFrom(s, "\"" + key + "\"", 0);
    KeyEndIsFirstMatch(s, "\"" + key + "\"", 0);
    if e.Some? {
      var b := NextFrom(s, e.value, '[');
      if b.Some? {
        ScanBodyYieldsDicts(s, b.value + 1, Outside, false, decode);
      }
    }
  }

  /** What a sequence of records written with `sep` between them is read
      back as, one record at a time. */
  lemma {:induction false} ScanDumpedObjects(s: string, p: nat, xs: seq<Json>, sep: string, topStrings: bool, decode: string -> Option<Json>)
    requires Separator(sep)
    requires forall k :: 0 <= k < |xs| ==> xs[k].JObj? && decode(Dumps(xs[k])) == Some(xs[k])
    requires p + |Join(sep, DumpsAll(xs))| <= |s| && s[p..p + |Join(sep, DumpsAll(xs))|] == Join(sep, DumpsAll(xs))
    ensures ScanBody(s, p, Outside, topStrings, decode)
         == Prepend(xs, ScanBody(s, p + |Join(sep, DumpsAll(xs))|, Outside, topStrings, decode))
    decreases |xs|
  {
    if xs == [] {
      assert |Join(sep, DumpsAll(xs))| == 0;
      var r := ScanBody(s, p, Outside, topStrings, decode);
      assert xs + r.items == r.items;
    } else if |xs| == 1 {
      assert Join(sep, DumpsAll(xs)) == Dumps(xs[0]);
      ScanDumpedObject(s, p, xs[0], topStrings, decode);
      assert [xs[0]] == xs;
    } else {
      var q := JoinStep(s, p, xs, sep);
      var tail := xs[1..];
      forall k | 0 <= k < |tail|
        ensures tail[k].JObj? && decode(Dumps(tail[k])) == Some(tail[k])
      {
        assert tail[k] == xs[k + 1];
      }
      ScanDumpedObjects(s, q, tail, sep, topStrings, decode);
      ScanDumpedCons(s, p, q, xs, sep, topStrings, decode);
    }
  }

  /** The first record of a joined sequence and where the rest begins. */
  lemma JoinStep(s: string, p: nat, xs: seq<Json>, sep: string) returns (q: nat)
    requires |xs| >= 2
    requires p + |Join(sep, DumpsAll(xs))| <= |s| && s[p..p + |Join(sep, DumpsAll(xs))|] == Join(sep, DumpsAll(xs))
    ensures q == p + |Dumps(xs[0]) + sep|
    ensures s[p..q] == Dumps(xs[0]) + sep
    ensures q + |Join(sep, DumpsAll(xs[1..]))| == p + |Join(sep, DumpsAll(xs))|
    ensures s[q..q + |Join(sep, DumpsAll(xs[1..]))|] == Join(sep, DumpsAll(xs[1..]))
  {
    var d := Dumps(xs[0]);
    var rest := Join(sep, DumpsAll(xs[1..]));
    assert DumpsAll(xs)[1..] == DumpsAll(xs[1..]);
    assert Join(sep, DumpsAll(xs)) == (d + sep) + rest;
    SplitSlice(s, p, d + sep, rest);
    q := p + |d + sep|;
  }

  lemma ScanDumpedCons(s: string, p: nat, q: nat, xs: seq<Json>, sep: string, topStrings: bool, decode: string -> Option<Json>)
    requires |xs| >= 2 && Separator(sep)
    requires xs[0].JObj? && decode(Dumps(xs[0])) == Some(xs[0])
    requires q == p + |Dumps(xs[0]) + sep| <= |s| && s[p..q] == Dumps(xs[0]) + sep
    requires q + |Join(sep, DumpsAll(xs[1..]))| <= |s|
    requires ScanBody(s, q, Outside, topStrings, decode)
          == Prepend(xs[1..], ScanBody(s, q + |Join(sep, DumpsAll(xs[1..]))|, Outside, topStrings, decode))
    ensures ScanBody(s, p, Outside, topStrings, decode)
         == Prepend(xs, ScanBody(s, q + |Join(sep, DumpsAll(xs[1..]))|, Outside, topStrings, decode))
  {
    var rest := ScanBody(s, q + |Join(sep, DumpsAll(xs[1..]))|, Outside, topStrings, decode);
    assert ScanBody(s, p, Outside, topStrings, decode) == Prepend([xs[0]], ScanBody(s, q, Outside, topStrings, decode)) by {
      ScanObjectThenSeparator(s, p, xs[0], sep, topStrings, decode);
    }
    assert Prepend([xs[0]], Prepend(xs[1..], rest)) == Prepend(xs, rest) by {
      PrependAssoc([xs[0]], xs[1..], rest);
      assert [xs[0]] + xs[1..] == xs;
    }
  }

  /** The export round trip: reading the complete output file back with the
      top-level reader yields exactly the exported records, provided the
      decoder inverts the encoder on each of them. */
  lemma ArrayTextReadsBack(kept: seq<Json>, topStrings: bool, decode: string -> Option<Json>)
    requires forall k :: 0 <= k < |kept| ==> kept[k].JObj? && decode(Dumps(kept[k])) == Some(kept[k])
    ensures TopLevel(ArrayText(kept, true), topStrings, decode) == Stream(kept, None)
  {
    var body := Join(",\n", DumpsAll(kept));
    var s := ArrayText(kept, true);
    var p := 2 + |body|;
    assert s == "[\n" + body + "\n]\n";
    assert TopLevel(s, topStrings, decode) == ScanBody(s, 1, Outside, topStrings, decode) by {
      LeadingSpaceUnique(s, 0);
    }
    assert ScanBody(s, 1, Outside, topStrings, decode) == ScanBody(s, 2, Outside, topStrings, decode) by {
      assert s[1..2] == "\n";
      SkipSeparators(s, 1, 2, topStrings, decode);
    }
    assert ScanBody(s, 2, Outside, topStrings, decode) == Prepend(kept, ScanBody(s, p, Outside, topStrings, decode)) by {
      assert Separator(",\n");
      assert s[2..p] == body;
      ScanDumpedObjects(s, 2, kept, ",\n", topStrings, decode);
    }
    assert ScanBody(s, p, Outside, topStrings, decode) == Stream([], None) by {
      assert s[p..p + 1] == "\n";
      SkipSeparators(s, p, p + 1, topStrings, decode);
      assert s[p + 1] == ']';
    }
    assert kept + [] == kept;
  }

  // ---------------------------------------------------------------------
  // Selecting and writing records
  // ---------------------------------------------------------------------

  /** The records `keep` accepts, in order. */
  function Matching(records: seq<Json>, keep: Json -> bool): seq<Json>
    decreases |records|
  {
    if records == [] then []
    else
      var last := records[|records| - 1];
      Matching(records[..|records| - 1], keep) + (if keep(last) then [last] else [])
  }

  /** Exactly the accepted records are matched, in their order. */
  lemma {:induction false} MatchingIsFilter(records: seq<Json>, keep: Json -> bool)
    ensures var m := Matching(records, keep);
      && |m| <= |records|
      && (forall k :: 0 <= k < |m| ==> m[k] in records && keep(m[k]))
      && (forall i :: 0 <= i < |records| && keep(records[i]) ==> records[i] in m)
    decreases |records|
  {
    if records != [] {
      var init := records[..|records| - 1];
      MatchingIsFilter(init, keep);
      assert forall i :: 0 <= i < |init| ==> init[i] == records[i];
      assert forall x :: x in init ==> x in records;
    }
  }

  /** The first `limit` of `xs` (all of them without a limit, none for a
      negative one). */
  function Capped(xs: seq<Json>, limit: Option<int>): (r: seq<Json>)
    ensures limit.None? ==> r == xs
    ensures limit.Some? ==> |r| == (if limit.value <= 0 then 0 else if limit.value < |xs| then limit.value else |xs|)
    ensures r == xs[..|r|]
  {
    if limit.None? then xs
    else if limit.value <= 0 then []
    else if limit.value < |xs| then xs[..limit.value]
    else xs
  }

  lemma CappedSnoc(xs: seq<Json>, x: Json, limit: Option<int>)
    ensures Capped(xs + [x], limit) ==
      if limit.None? || |Capped(xs, limit)| < limit.value then Capped(xs, limit) + [x] else Capped(xs, limit)
  {
    if limit.Some? && 0 < limit.value && limit.value < |xs| + 1 {
      assert (xs + [x])[..limit.value] == xs[..limit.value];
    }
  }

  /** One more record seen: it is kept when accepted and the cap is not
      yet reached. */
  lemma KeptStep(records: seq<Json>, i: nat, keep: Json -> bool, limit: Option<int>)
    requires i < |records|
    ensures var k := Capped(Matching(records[..i], keep), limit);
      Capped(Matching(records[..i + 1], keep), limit)
        == if keep(records[i]) && (limit.None? || |k| < limit.value) then k + [records[i]] else k
  {
    assert records[..i + 1][..i] == records[..i];
    CappedSnoc(Matching(records[..i], keep), records[i], limit);
  }

  /** Writing one more record: a comma and a newline before every record
      but the first. */
  lemma WriteNext(kept: seq<Json>, obj: Json)
    ensures "[\n" + Join(",\n", DumpsAll(kept + [obj]))
         == "[\n" + Join(",\n", DumpsAll(kept)) + (if kept == [] then "" else ",\n") + Dumps(obj)
  {
    JoinSnoc(",\n", DumpsAll(kept), Dumps(obj));
    assert DumpsAll(kept + [obj]) == DumpsAll(kept) + [Dumps(obj)];
  }

  lemma ArrayTextFrom(kept: seq<Json>, closed: bool, head: string)
    requires head == "[\n" + Join(",\n", DumpsAll(kept))
    ensures ArrayText(kept, closed) == head + (if closed then "\n]\n" else "")
  {
    assert head + [] == head;
  }
}
