/** The two colour normalisers of the crochet tools.

    The NiceGUI port's `normalize_hex` is lenient: it never fails, adds a
    missing `#`, widens `#RGB` to `#RRGGBB` and lower-cases whatever it was
    given.  The Tk editor and the image converter share a strict one that
    accepts exactly six hex digits (with or without `#`), upper-cases them,
    and answers `None` for anything else. */
module Hex {
  import opened Wrappers
  import opened Text
  import opened Json

  /** `t` with a `#` in front unless it already starts with one. */
  function WithHash(t: string): (h: string)
    ensures h != [] && h[0] == '#'
    ensures t != [] && t[0] == '#' ==> h == t
    ensures (t == [] || t[0] != '#') ==> h == "#" + t
  {
    if t != [] && t[0] == '#' then t else "#" + t
  }

  /** Every character written twice, as `"".join(c * 2 for c in s)`. */
  function Doubled(s: string): (r: string)
    ensures |r| == 2 * |s|
    ensures forall i :: 0 <= i < |s| ==> r[2 * i] == s[i] && r[2 * i + 1] == s[i]
  {
    if s == [] then []
    else
      var rest := Doubled(s[1..]);
      assert forall i :: 1 <= i < |s| ==> s[1..][i - 1] == s[i];
      [s[0], s[0]] + rest
  }

  predicate IsLowerFixed(s: string) {
    forall i :: 0 <= i < |s| ==> LowerChar(s[i]) == s[i]
  }

  lemma LowerIsLowerFixed(s: string)
    ensures IsLowerFixed(Lower(s))
  {
  }

  lemma LowerCharKeepsSpace(c: char)
    ensures IsSpace(LowerChar(c)) == IsSpace(c)
  {
  }

  // ---- the NiceGUI port ----

  /** `normalize_hex` of the NiceGUI port: strip, `#000000` for nothing,
      add a missing `#`, widen a three-digit colour, lower-case. */
  function NormalizeLoose(s: string): (r: string)
    ensures r != [] && r[0] == '#'
    ensures |r| != 4
    ensures !IsSpace(r[|r| - 1])
    ensures IsLowerFixed(r)
    ensures AllSpace(s) ==> r == "#000000"
    ensures !AllSpace(s) && |WithHash(Strip(s))| != 4 ==> r == Lower(WithHash(Strip(s)))
    ensures |WithHash(Strip(s))| == 4 ==> r == Lower("#" + Doubled(WithHash(Strip(s))[1..]))
  {
    var t := Strip(s);
    if t == [] then "#000000"
    else
      var h := WithHash(t);
      var w := if |h| == 4 then "#" + Doubled(h[1..]) else h;
      var r := Lower(w);
      assert w != [] && w[0] == '#' && |w| != 4;
      assert w[|w| - 1] == t[|t| - 1] by {
        if |h| == 4 {
          assert w[|w| - 1] == h[1..][2];
        }
      }
      assert !IsSpace(r[|r| - 1]) by {
        LowerCharKeepsSpace(w[|w| - 1]);
      }
      assert IsLowerFixed(r) by {
        LowerIsLowerFixed(w);
      }
      r
  }

  /** A three-digit colour, with or without `#` and surrounded by any white
      space, is widened to six digits by doubling each digit. */
  lemma LooseWidensShort(s: string, d: string)
    requires |d| == 3 && d[0] != '#'
    requires Strip(s) == d || Strip(s) == "#" + d
    ensures |NormalizeLoose(s)| == 7 && NormalizeLoose(s)[0] == '#'
    ensures forall i :: 0 <= i < 3 ==>
      NormalizeLoose(s)[2 * i + 1] == LowerChar(d[i]) && NormalizeLoose(s)[2 * i + 2] == LowerChar(d[i])
  {
    var h := WithHash(Strip(s));
    assert h == "#" + d;
    assert h[1..] == d;
  }

  /** Any other text keeps its characters: a missing `#` is added and the
      result is lower-cased, so `"FF0000"` becomes `"#ff0000"`. */
  lemma LooseKeepsOther(s: string, d: string)
    requires d != [] && d[0] != '#' && |d| != 3
    requires Strip(s) == d || Strip(s) == "#" + d
    ensures NormalizeLoose(s) == "#" + Lower(d)
  {
    var h := WithHash(Strip(s));
    assert h == "#" + d;
    assert Lower(h) == "#" + Lower(d) by {
      assert forall i :: 1 <= i < |h| ==> h[i] == d[i - 1];
    }
  }

  /** Normalising twice is normalising once. */
  lemma LooseIdempotent(s: string)
    ensures NormalizeLoose(NormalizeLoose(s)) == NormalizeLoose(s)
  {
    var r := NormalizeLoose(s);
    StripNoop(r);
    assert WithHash(r) == r;
    assert Lower(r) == r;
  }

  /** `normalize_hex(v)` on a decoded JSON value: `(v or "")` turns every
      false-like value into the empty text, and `.strip()` raises on any
      other value that is not a string (`None` here). */
  function NormalizeLooseValue(v: Json): (r: Option<string>)
    ensures v.JStr? ==> r == Some(NormalizeLoose(v.s))
    ensures !v.JStr? && !Truthy(v) ==> r == Some("#000000")
    ensures !v.JStr? && Truthy(v) ==> r == None
  {
    if v.JStr? then Some(NormalizeLoose(v.s))
    else if Truthy(v) then None
    else Some(NormalizeLoose(""))
  }

  // ---- the Tk editor and the image converter ----

  /** `^#([0-9a-fA-F]{6})$`. */
  predicate IsHexColor(h: string) {
    |h| == 7 && h[0] == '#' && forall i :: 1 <= i < 7 ==> IsHexDigit(h[i])
  }

  /** A colour as the strict normaliser hands it out: `#` and six digits or
      capital letters A-F. */
  predicate IsCanonicalColor(h: string) {
    IsHexColor(h) && forall i :: 1 <= i < 7 ==> !('a' <= h[i] <= 'f')
  }

  /** `normalize_hex` of the Tk editor and the image converter. */
  function NormalizeStrict(s: string): (r: Option<string>)
    ensures r.Some? <==> Strip(s) != [] && IsHexColor(WithHash(Strip(s)))
    ensures r.Some? ==> IsCanonicalColor(r.value)
    ensures r.Some? ==> forall i :: 1 <= i < 7 ==> r.value[i] == UpperChar(WithHash(Strip(s))[i])
  {
    var t := Strip(s);
    if t == [] then None
    else
      var h := WithHash(t);
      if IsHexColor(h) then Some(Upper(h)) else None
  }

  /** Every six-digit colour is accepted, with or without its `#`, and comes
      back upper-cased. */
  lemma StrictAcceptsColor(h: string)
    requires IsHexColor(h)
    ensures NormalizeStrict(h) == Some(Upper(h))
    ensures NormalizeStrict(h[1..]) == Some(Upper(h))
  {
    var d := h[1..];
    assert h == "#" + d by {
      assert h[0] == '#';
      assert forall i :: 1 <= i < 7 ==> h[i] == d[i - 1];
    }
    StripNoop(h);
    assert !IsSpace(d[0]) && !IsSpace(d[5]) by {
      assert d[0] == h[1] && d[5] == h[6];
    }
    StripNoop(d);
    assert d[0] != '#' by { assert d[0] == h[1]; }
  }

  /** A normalised colour is a fixed point. */
  lemma StrictIdempotent(s: string)
    requires NormalizeStrict(s).Some?
    ensures NormalizeStrict(NormalizeStrict(s).value) == NormalizeStrict(s)
  {
    CanonicalFixed(NormalizeStrict(s).value);
  }

  /** A normalised colour normalises to itself, so `or "#FFFFFF"` never
      replaces it. */
  lemma CanonicalFixed(h: string)
    requires IsCanonicalColor(h)
    ensures NormalizeStrict(h) == Some(h) && ColorOr(h, "#FFFFFF") == h
  {
    assert Upper(h) == h by {
      forall i | 0 <= i < |h|
        ensures UpperChar(h[i]) == h[i]
      {
        assert i == 0 || IsHexDigit(h[i]);
      }
      UpperFixed(h);
    }
    assert NormalizeStrict(h) == Some(h) by {
      StrictAcceptsColor(h);
    }
  }

  /** `normalize_hex(v)` on a decoded JSON value; the outer `Option` is
      `None` where `.strip()` raises. */
  function NormalizeStrictValue(v: Json): (r: Option<Option<string>>)
    ensures v.JStr? ==> r == Some(NormalizeStrict(v.s))
    ensures !v.JStr? && !Truthy(v) ==> r == Some(None)
    ensures !v.JStr? && Truthy(v) ==> r == None
  {
    if v.JStr? then Some(NormalizeStrict(v.s))
    else if Truthy(v) then None
    else Some(NormalizeStrict(""))
  }

  /** Both fallback colours are in normalised form. */
  lemma FallbacksCanonical()
    ensures IsCanonicalColor("#FFFFFF") && IsCanonicalColor("#000000")
  {
  }

  /** `normalize_hex(s) or fallback`: the Tk editor falls back to
      `"#FFFFFF"` for a background, the image converter to `"#000000"` for
      a figure colour. */
  function ColorOr(s: string, fallback: string): (r: string)
    ensures IsCanonicalColor(fallback) ==> IsCanonicalColor(r)
    ensures NormalizeStrict(s).Some? ==> r == NormalizeStrict(s).value
    ensures NormalizeStrict(s).None? ==> r == fallback
  {
    match NormalizeStrict(s)
    case Some(h) => h
    case None => fallback
  }
}
