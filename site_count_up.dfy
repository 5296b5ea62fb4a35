/** The statistics banner of site.js (`initStatsCountUp`): how each
    `.stat-number` text is split into a prefix, a number and a suffix by the
    pattern `^(.*?)(\d+(?:\.\d+)?)(.*)$`, and when the count-up starts. The
    animation frames themselves are not modelled. */
module CountUp {
  import opened Wrappers
  import opened Text

  /** The characters a regular-expression `.` does not match. */
  predicate IsLineTerminator(c: char) {
    c == '\n' || c == '\r' || c == '\U{2028}' || c == '\U{2029}'
  }

  predicate NoLineTerminator(s: string) {
    forall i :: 0 <= i < |s| ==> !IsLineTerminator(s[i])
  }

  predicate NoDigit(s: string) {
    forall i :: 0 <= i < |s| ==> !IsDigit(s[i])
  }

  /** A text the group `\d+(?:\.\d+)?` matches whole: digits, optionally
      followed by a point and more digits. */
  ghost predicate IsNumeral(s: string) {
    || (s != [] && AllDigits(s))
    || exists k :: 0 < k < |s| - 1 && s[k] == '.' && AllDigits(s[..k]) && AllDigits(s[k + 1..])
  }

  /** The three groups of a match. */
  datatype Stat = Stat(prefix: string, number: string, suffix: string)

  /** The groups split `t` as the pattern requires: they make up the whole
      text, the middle one is a numeral, and the text has no line break. */
  ghost predicate IsSplit(t: string, st: Stat) {
    st.prefix + st.number + st.suffix == t && IsNumeral(st.number) && NoLineTerminator(t)
  }

  /** The index of the first digit of `s` at or after `i`, or |s|. */
  function FirstDigit(s: string, i: nat): (r: nat)
    requires i <= |s|
    ensures i <= r <= |s| && (r < |s| ==> IsDigit(s[r]))
    ensures forall k :: i <= k < r ==> !IsDigit(s[k])
    decreases |s| - i
  {
    if i == |s| || IsDigit(s[i]) then i else FirstDigit(s, i + 1)
  }

  /** The end of the run of digits of `s` that starts at `i`. */
  function DigitsEnd(s: string, i: nat): (r: nat)
    requires i <= |s|
    ensures i <= r <= |s| && (r < |s| ==> !IsDigit(s[r]))
    ensures forall k :: i <= k < r ==> IsDigit(s[k])
    decreases |s| - i
  {
    if i == |s| || !IsDigit(s[i]) then i else DigitsEnd(s, i + 1)
  }

  /** The first line terminator of `s`, or |s|. */
  function FirstLineTerminator(s: string, i: nat): (r: nat)
    requires i <= |s|
    ensures i <= r <= |s| && (r < |s| ==> IsLineTerminator(s[r]))
    ensures forall k :: i <= k < r ==> !IsLineTerminator(s[k])
    decreases |s| - i
  {
    if i == |s| || IsLineTerminator(s[i]) then i else FirstLineTerminator(s, i + 1)
  }

  /** The match of the pattern on a trimmed text, found as the regular
      expression engine finds it: the lazy prefix stops at the first digit,
      the integer part takes every digit after it, and the fraction is taken
      when a point and a digit follow. None when there is no digit or the
      text spans lines. */
  function MatchStat(t: string): (r: Option<Stat>)
    ensures r.Some? ==> && r.value.prefix + r.value.number + r.value.suffix == t && NoDigit(r.value.prefix)
                        && r.value.number != [] && IsDigit(r.value.number[0]) && NoLineTerminator(t)
  {
    if FirstLineTerminator(t, 0) < |t| then None
    else
      var p := FirstDigit(t, 0);
      if p == |t| then None
      else
        var e := DigitsEnd(t, p);
        var f := if e + 1 < |t| && t[e] == '.' && IsDigit(t[e + 1]) then DigitsEnd(t, e + 1) else e;
        SlicesJoin(t, p, f);
        assert t[p..f][0] == t[p];
        Some(Stat(t[..p], t[p..f], t[f..]))
  }

  /** The text's match after JavaScript's `trim()`. */
  function ParseStat(text: string): (r: Option<Stat>)
    ensures r.None? <==> NoDigit(Trim(text)) || !NoLineTerminator(Trim(text))
    ensures r.Some? ==> IsSplit(Trim(text), r.value) && NoDigit(r.value.prefix)
  {
    var t := Trim(text);
    MatchStatNone(t);
    if MatchStat(t).Some? then MatchStatSplits(t); MatchStat(t) else MatchStat(t)
  }

  /** Three consecutive slices make up the text. */
  lemma SlicesJoin(t: string, p: nat, f: nat)
    requires p <= f <= |t|
    ensures t[..p] + t[p..f] + t[f..] == t
  {
  }

  /** A run of digits, optionally followed by a point and a second run, is
      a numeral. */
  lemma DigitRunsNumeral(t: string, p: nat, e: nat, f: nat)
    requires p < e <= f <= |t|
    requires forall k :: p <= k < e ==> IsDigit(t[k])
    requires f == e || (e + 1 < f && t[e] == '.' && forall k :: e + 1 <= k < f ==> IsDigit(t[k]))
    ensures IsNumeral(t[p..f])
  {
    var n := t[p..f];
    if f == e {
      assert AllDigits(n);
    } else {
      var k := e - p;
      assert n[..k] == t[p..e];
      assert n[k + 1..] == t[e + 1..f];
      assert 0 < k < |n| - 1 && n[k] == '.' && AllDigits(n[..k]) && AllDigits(n[k + 1..]);
    }
  }

  /** Cutting a one-line text before its first digit and after a numeral
      splits it as the pattern requires. */
  lemma SplitAt(t: string, p: nat, e: nat, f: nat)
    requires p < e <= f <= |t| && NoLineTerminator(t)
    requires forall k :: 0 <= k < p ==> !IsDigit(t[k])
    requires forall k :: p <= k < e ==> IsDigit(t[k])
    requires f == e || (e + 1 < f && t[e] == '.' && forall k :: e + 1 <= k < f ==> IsDigit(t[k]))
    ensures IsSplit(t, Stat(t[..p], t[p..f], t[f..]))
    ensures NoDigit(t[..p])
  {
    SlicesJoin(t, p, f);
    DigitRunsNumeral(t, p, e, f);
  }

  /** A match splits the text as the pattern requires, with no digit in the
      prefix (the lazy group is as short as it can be). */
  lemma MatchStatSplits(t: string)
    requires MatchStat(t).Some?
    ensures IsSplit(t, MatchStat(t).value)
    ensures NoDigit(MatchStat(t).value.prefix)
  {
    var p := FirstDigit(t, 0);
    var e := DigitsEnd(t, p);
    var f := if e + 1 < |t| && t[e] == '.' && IsDigit(t[e + 1]) then DigitsEnd(t, e + 1) else e;
    SplitAt(t, p, e, f);
  }

  /** The integer part and the fraction are greedy: the suffix does not
      start with a digit, nor with a point and a digit when the number has no
      fraction yet. */
  lemma MatchStatGreedy(t: string)
    requires MatchStat(t).Some?
    ensures var st := MatchStat(t).value;
            st.suffix == [] || !IsDigit(st.suffix[0])
    ensures var st := MatchStat(t).value;
            '.' !in st.number && |st.suffix| >= 2 ==> !(st.suffix[0] == '.' && IsDigit(st.suffix[1]))
  {
    var st := MatchStat(t).value;
    var p := FirstDigit(t, 0);
    var e := DigitsEnd(t, p);
    var f := p + |st.number|;
    assert st.suffix == t[f..];
    if f > e {
      assert st.number[e - p] == t[e] == '.';
    }
  }

  /** Whenever the pattern can split the text at all, there is a match, and
      its prefix is no longer than that of any split. */
  lemma MatchStatComplete(t: string, st: Stat)
    requires IsSplit(t, st)
    ensures MatchStat(t).Some?
    ensures |MatchStat(t).value.prefix| <= |st.prefix|
  {
    var i := |st.prefix|;
    assert st.number != [] && IsDigit(st.number[0]);
    assert t[i] == st.number[0];
    assert FirstLineTerminator(t, 0) == |t|;
  }

  /** There is no match exactly when the text has no digit or has a line
      break. */
  lemma MatchStatNone(t: string)
    ensures MatchStat(t).None? <==> NoDigit(t) || !NoLineTerminator(t)
  {
    if !NoDigit(t) && NoLineTerminator(t) {
      assert FirstLineTerminator(t, 0) == |t|;
      assert FirstDigit(t, 0) < |t|;
    }
  }

  /** `filter(Boolean)` over parse results: the matches, in order. */
  function Matched(parses: seq<Option<Stat>>): (r: seq<Stat>)
    ensures |r| <= |parses|
  {
    if parses == [] then []
    else if parses[0].Some? then [parses[0].value] + Matched(parses[1..])
    else Matched(parses[1..])
  }

  /** Nothing is kept exactly when every parse failed. */
  lemma {:induction false} MatchedEmpty(parses: seq<Option<Stat>>)
    ensures Matched(parses) == [] <==> forall i :: 0 <= i < |parses| ==> parses[i].None?
  {
    if parses != [] {
      MatchedEmpty(parses[1..]);
      assert forall i :: 1 <= i < |parses| ==> parses[i] == parses[1..][i - 1];
    }
  }

  /** `stats.map(parse).filter(Boolean)` */
  function ParseStats(texts: seq<string>): (r: seq<Stat>)
    ensures |r| <= |texts|
  {
    Matched(seq(|texts|, i requires 0 <= i < |texts| => ParseStat(texts[i])))
  }

  /** No statistic is animated exactly when no text matches. */
  lemma ParseStatsEmpty(texts: seq<string>)
    ensures ParseStats(texts) == [] <==> forall i :: 0 <= i < |texts| ==> ParseStat(texts[i]).None?
  {
    var parses := seq(|texts|, i requires 0 <= i < |texts| => ParseStat(texts[i]));
    MatchedEmpty(parses);
    assert ParseStats(texts) == Matched(parses);
    forall i | 0 <= i < |texts|
      ensures parses[i].None? == ParseStat(texts[i]).None?
    {
    }
  }

  /** How the count-up starts on a page: not at all, at once, or when the
      banner comes into view. */
  datatype Start = NoAnimation | RunNow(items: seq<Stat>) | OnBannerVisible(items: seq<Stat>)

  /** `initStatsCountUp`: nothing with no statistics, with reduced motion or
      when no text matches; at once without a banner or without
      IntersectionObserver; otherwise once the banner is seen. */
  function StartOf(texts: seq<string>, reduceMotion: bool, hasBanner: bool, hasObserver: bool): (r: Start)
    ensures r.NoAnimation? <==> texts == [] || reduceMotion || ParseStats(texts) == []
    ensures !r.NoAnimation? ==> r.items == ParseStats(texts)
    ensures r.OnBannerVisible? <==> !r.NoAnimation? && hasBanner && hasObserver
  {
    if texts == [] || reduceMotion then NoAnimation
    else
      var parsed := ParseStats(texts);
      if parsed == [] then NoAnimation
      else if !hasBanner || !hasObserver then RunNow(parsed)
      else OnBannerVisible(parsed)
  }

  /** The observer callback's `started` flag: the animation runs on the
      first intersecting entry and never again. */
  class BannerWatch {
    var started: bool

    constructor ()
      ensures !started
    {
      started := false;
    }

    /** One observer entry; `run` says whether the animation starts now. */
    method OnEntry(isIntersecting: bool) returns (run: bool)
      modifies this
      ensures run <==> !old(started) && isIntersecting
      ensures started <==> old(started) || isIntersecting
    {
      if started || !isIntersecting {
        return false;
      }
      started := true;
      run := true;
    }
  }
}
