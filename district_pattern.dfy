/** The text search `parseDistrictData` (scrapers/kathmandu-post/index.js)
    performs on an inline script: the marker test
    `inlineContent.match('var district_data')` and one `exec` of the regular
    expression

        var district_data = JSON.parse\('(.*?)'\)

    in which the dot after `JSON` is unescaped (any character but a line
    terminator) and the capture is lazy. A backtracking `exec` takes the
    leftmost position where a match starts and, at that position, the
    shortest capture; every captured character, like the dot, must not be a
    line terminator. */
module DistrictPattern {
  import opened Text

  const Marker := "var district_data"
  /** The literal text before the unescaped dot. */
  const Head := "var district_data = JSON"
  /** The literal text between the dot and the capture. */
  const Open := "parse('"
  /** The literal text after the capture. */
  const Close := "')"

  /** What the regular expression's `.` refuses: the ECMAScript line terminators. */
  predicate IsLineTerminator(c: char) {
    c == '\n' || c == '\r' || c == '\U{2028}' || c == '\U{2029}'
  }

  predicate PrefixAt(t: string, p: string, k: nat) {
    k + |p| <= |t| && t[k..k + |p|] == p
  }

  /** `t.match(m)` for a pattern without special characters: `m` occurs in `t`. */
  predicate Contains(t: string, m: string) {
    exists k :: 0 <= k <= |t| && PrefixAt(t, m, k)
  }

  /** Where the capture starts when a match starts at `s`. */
  function CaptureStart(s: nat): nat {
    s + |Head| + 1 + |Open|
  }

  /** `Head`, one non-terminator character and `Open` start at `s`. */
  predicate OpensAt(t: string, s: nat) {
    && PrefixAt(t, Head, s)
    && s + |Head| < |t|
    && !IsLineTerminator(t[s + |Head|])
    && PrefixAt(t, Open, s + |Head| + 1)
  }

  /** The whole expression matches at `s` with a capture of `n` characters. */
  predicate CaptureAt(t: string, s: nat, n: nat) {
    && OpensAt(t, s)
    && CaptureStart(s) + n + |Close| <= |t|
    && (forall j :: CaptureStart(s) <= j < CaptureStart(s) + n ==> !IsLineTerminator(t[j]))
    && PrefixAt(t, Close, CaptureStart(s) + n)
  }

  /** The lazy quantifier at a start `s` that opens: the shortest capture
      length from `n` on, or none. */
  function ShortestFrom(t: string, s: nat, n: nat): (r: Option<nat>)
    requires OpensAt(t, s)
    requires forall j :: CaptureStart(s) <= j < CaptureStart(s) + n && j < |t| ==> !IsLineTerminator(t[j])
    ensures r.Some? ==> n <= r.value <= |t| && CaptureAt(t, s, r.value)
    ensures r.Some? ==> forall m :: n <= m < r.value ==> !CaptureAt(t, s, m)
    ensures r.None? ==> forall m :: n <= m ==> !CaptureAt(t, s, m)
    decreases |t| - n
  {
    var c := CaptureStart(s);
    if c + n + |Close| > |t| then None
    else if PrefixAt(t, Close, c + n) then Some(n)
    else if IsLineTerminator(t[c + n]) then
      NoCaptureAcrossTerminator(t, s, n);
      None
    else
      assert !CaptureAt(t, s, n);
      ShortestFrom(t, s, n + 1)
  }

  /** A line terminator where the capture would continue rules out every
      capture that long or longer, since `)` would have to come first. */
  lemma NoCaptureAcrossTerminator(t: string, s: nat, n: nat)
    requires CaptureStart(s) + n < |t| && IsLineTerminator(t[CaptureStart(s) + n])
    requires !PrefixAt(t, Close, CaptureStart(s) + n)
    ensures forall m :: n <= m ==> !CaptureAt(t, s, m)
  {
    var c := CaptureStart(s);
    forall m | n < m
      ensures !CaptureAt(t, s, m)
    {
      assert c <= c + n < c + m;
    }
  }

  /** The leftmost start from `s` on, with its shortest capture length. */
  function LeftmostFrom(t: string, s: nat): (r: Option<(nat, nat)>)
    ensures r.Some? ==> s <= r.value.0 && CaptureAt(t, r.value.0, r.value.1)
    ensures r.Some? ==> forall m :: 0 <= m < r.value.1 ==> !CaptureAt(t, r.value.0, m)
    ensures r.Some? ==> forall k, m :: s <= k < r.value.0 ==> !CaptureAt(t, k, m)
    ensures r.None? ==> forall k, m :: s <= k ==> !CaptureAt(t, k, m)
    decreases |t| - s
  {
    if s + |Head| > |t| then None
    else if OpensAt(t, s) && ShortestFrom(t, s, 0).Some? then Some((s, ShortestFrom(t, s, 0).value))
    else LeftmostFrom(t, s + 1)
  }

  /** `regExp.exec(t)[1]`: the captured text, or `None` where `exec` gives `null`. */
  function Exec(t: string): (r: Option<string>)
    ensures r.Some? <==> exists s, n :: CaptureAt(t, s, n)
  {
    match LeftmostFrom(t, 0)
    case None => None
    case Some((s, n)) => Some(t[CaptureStart(s)..CaptureStart(s) + n])
  }

  /** The captured text is what follows the leftmost opening up to the first
      `')` after it: it holds no `')` and no line terminator. */
  lemma ExecIsLeftmostShortest(t: string)
    requires Exec(t).Some?
    ensures exists s, n ::
              && CaptureAt(t, s, n)
              && Exec(t).value == t[CaptureStart(s)..CaptureStart(s) + n]
              && (forall k, m :: k < s ==> !CaptureAt(t, k, m))
              && (forall m :: m < n ==> !CaptureAt(t, s, m))
  {
    var (s, n) := LeftmostFrom(t, 0).value;
    assert CaptureAt(t, s, n);
  }

  /** A script that opens the expression and closes it later on the same line
      yields exactly the text in between. */
  lemma ExecExample(blob: string)
    requires forall j :: 0 <= j < |blob| ==> !IsLineTerminator(blob[j]) && blob[j] != '\''
    ensures Exec(Head + "." + Open + blob + Close + ";").Some?
    ensures Exec(Head + "." + Open + blob + Close + ";").value == blob
  {
    var t := Head + "." + Open + blob + Close + ";";
    var c := CaptureStart(0);
    assert t[..|Head|] == Head;
    assert t[|Head|] == '.';
    assert t[|Head| + 1..c] == Open;
    assert t[c..c + |blob|] == blob;
    assert t[c + |blob|..c + |blob| + 2] == Close;
    assert OpensAt(t, 0);
    assert CaptureAt(t, 0, |blob|);
    forall m | 0 <= m < |blob|
      ensures !CaptureAt(t, 0, m)
    {
      assert t[c + m] == blob[m];
    }
    assert ShortestFrom(t, 0, 0) == Some(|blob|);
  }

  /** Every script the expression matches contains the marker, so the marker
      test never skips a script the expression would have matched. */
  lemma MatchImpliesMarker(t: string, s: nat, n: nat)
    requires CaptureAt(t, s, n)
    ensures Contains(t, Marker)
  {
    assert t[s..s + |Head|][..|Marker|] == Marker;
    assert t[s..s + |Marker|] == Marker;
    assert PrefixAt(t, Marker, s);
  }
}
