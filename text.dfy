/** Character classes, whitespace normalisation and decimal formatting shared by
    the three submission handlers, the lead exporter and the browser script. */
module Text {

  /** Longest value a normalised form field may have. */
  const MaxFieldLength: nat := 2000

  /** One whitespace class standing for Python's `\s` / `str.strip()` and
      JavaScript's `\s` / `String.prototype.trim()` (ASCII members only). */
  predicate IsSpace(c: char) {
    c == ' ' || c == '\t' || c == '\n' || c == '\r' || c == '\U{B}' || c == '\U{C}'
  }

  predicate NoSpace(s: string) {
    forall i :: 0 <= i < |s| ==> !IsSpace(s[i])
  }

  predicate AllSpace(s: string) {
    forall i :: 0 <= i < |s| ==> IsSpace(s[i])
  }

  /** Drops the leading whitespace run. */
  function TrimStart(s: string): (r: string)
    ensures |r| <= |s| && r == s[|s| - |r|..]
    ensures r == [] || !IsSpace(r[0])
    ensures forall i :: 0 <= i < |s| - |r| ==> IsSpace(s[i])
  {
    if s == [] || !IsSpace(s[0]) then s else TrimStart(s[1..])
  }

  /** Drops the trailing whitespace run. */
  function TrimEnd(s: string): (r: string)
    ensures |r| <= |s| && r == s[..|r|]
    ensures r == [] || !IsSpace(r[|r| - 1])
    ensures forall i :: |r| <= i < |s| ==> IsSpace(s[i])
  {
    if s == [] || !IsSpace(s[|s| - 1]) then s else TrimEnd(s[..|s| - 1])
  }

  /** Python `str.strip()` and JavaScript `String.prototype.trim()`: the slice
      of `s` left after removing the whitespace runs at both ends. */
  function Trim(s: string): (r: string)
    ensures r == [] || (!IsSpace(r[0]) && !IsSpace(r[|r| - 1]))
    ensures r == [] <==> AllSpace(s)
  {
    TrimEnd(TrimStart(s))
  }

  /** Every character is a single UTF-16 code unit. */
  predicate InBmp(s: string) {
    forall i :: 0 <= i < |s| ==> s[i] as int < 0x1_0000
  }

  /** `r` is the slice of `s` starting at `a` with only whitespace around it. */
  predicate IsCoreSlice(s: string, a: nat, r: string) {
    && a + |r| <= |s| && r == s[a..a + |r|]
    && AllSpace(s[..a]) && AllSpace(s[a + |r|..])
  }

  /** Trim keeps a slice of `s` with only whitespace around it; with Trim's
      own ends this pins the result. */
  lemma TrimIsSlice(s: string)
    ensures IsCoreSlice(s, |s| - |TrimStart(s)|, Trim(s))
  {
    var t := TrimStart(s);
    var a := |s| - |t|;
    AllSpacePrefix(s, a);
    SliceOfSuffix(s, t, a, TrimEnd(t));
  }

  lemma SliceOfSuffix(s: string, t: string, a: nat, r: string)
    requires a <= |s| && t == s[a..] && AllSpace(s[..a])
    requires |r| <= |t| && r == t[..|r|]
    requires forall i :: |r| <= i < |t| ==> IsSpace(t[i])
    ensures IsCoreSlice(s, a, r)
  {
    forall i | a + |r| <= i < |s|
      ensures IsSpace(s[i])
    {
      assert s[i] == t[i - a];
    }
    AllSpaceSuffix(s, a + |r|);
  }

  /** A string whose only whitespace characters are single spaces. */
  predicate Collapsed(s: string) {
    forall i :: 0 <= i < |s| && IsSpace(s[i]) ==> s[i] == ' ' && (i + 1 < |s| ==> !IsSpace(s[i + 1]))
  }

  /** `re.sub(r"\s+", " ", s)` and `s.replace(/\s+/g, " ")`: every maximal run of
      whitespace becomes one space. */
  function Collapse(s: string): (r: string)
    ensures |r| <= |s|
    ensures r == [] <==> s == []
    ensures r != [] ==> (IsSpace(r[0]) <==> IsSpace(s[0]))
    ensures r != [] ==> (IsSpace(r[|r| - 1]) <==> IsSpace(s[|s| - 1]))
    ensures Collapsed(r)
    decreases |s|
  {
    if s == [] then []
    else if IsSpace(s[0]) then
      var rest := Collapse(TrimStart(s[1..]));
      CollapsedCons(' ', rest);
      [' '] + rest
    else
      var rest := Collapse(s[1..]);
      CollapsedCons(s[0], rest);
      [s[0]] + rest
  }

  /** A whitespace run between two visible characters becomes exactly one
      space, and the text on either side is collapsed on its own. */
  lemma CollapseJoin(a: string, w: string, b: string)
    requires a != [] && !IsSpace(a[|a| - 1])
    requires w != [] && AllSpace(w)
    requires b != [] && !IsSpace(b[0])
    ensures Collapse(a + w + b) == Collapse(a) + " " + Collapse(b)
  {
    var ca, cb := Collapse(a), Collapse(b);
    assert a + w + b == a + (w + b);
    CollapseAppend(a, w + b);
    CollapseOfRun(w, b);
    Regroup(ca, " ", cb);
  }

  /** No whitespace run crosses the end of a string that ends in a visible
      character, so such a string collapses independently of what follows. */
  lemma {:induction false} CollapseAppend(a: string, u: string)
    requires a != [] && !IsSpace(a[|a| - 1])
    ensures Collapse(a + u) == Collapse(a) + Collapse(u)
    decreases |a|, 1
  {
    if IsSpace(a[0]) {
      CollapseAppendSpaceHead(a, u);
    } else {
      var s := a + u;
      var x := a[1..];
      HeadOfAppend(a, u);
      CollapseUnfold(s);
      CollapseUnfold(a);
      if |a| == 1 {
        assert x == [] && x + u == u;
        assert Collapse(x) == [];
        assert Collapse(s) == [a[0]] + Collapse(u);
        assert Collapse(a) == [a[0]];
      } else {
        CollapseAppend(x, u);
        assert Collapse(s) == [a[0]] + Collapse(x + u);
        assert Collapse(a) == [a[0]] + Collapse(x);
        Regroup([a[0]], Collapse(x), Collapse(u));
      }
    }
  }

  /** CollapseAppend when `a` starts with whitespace: the leading run of `a`
      is trimmed before the rest is collapsed. */
  lemma {:induction false} CollapseAppendSpaceHead(a: string, u: string)
    requires a != [] && IsSpace(a[0]) && !IsSpace(a[|a| - 1])
    ensures Collapse(a + u) == Collapse(a) + Collapse(u)
    decreases |a|, 0
  {
    var s := a + u;
    var x := a[1..];
    HeadOfAppend(a, u);
    var t := TrimStart(x);
    TrimStartKeepsLast(x);
    CollapseAppend(t, u);
    TrimStartConcat(x, u);
    CollapseUnfold(s);
    CollapseUnfold(a);
    assert Collapse(s) == [' '] + Collapse(t + u);
    assert Collapse(a) == [' '] + Collapse(t);
    Regroup([' '], Collapse(t), Collapse(u));
  }

  lemma Regroup(c: string, x: string, y: string)
    ensures c + (x + y) == (c + x) + y
  {
  }

  /** Trimming the front of a string that ends in a visible character keeps
      that last character. */
  lemma TrimStartKeepsLast(x: string)
    requires x != [] && !IsSpace(x[|x| - 1])
    ensures !AllSpace(x)
    ensures TrimStart(x) != [] && !IsSpace(TrimStart(x)[|TrimStart(x)| - 1])
    ensures |TrimStart(x)| <= |x|
  {
    var t := TrimStart(x);
    assert t == x[|x| - |t|..];
  }

  lemma HeadOfAppend(a: string, u: string)
    requires a != []
    ensures (a + u)[0] == a[0] && (a + u)[1..] == a[1..] + u
    ensures |a| > 1 ==> a[1..] != [] && a[1..][|a| - 2] == a[|a| - 1]
  {
  }

  /** A whitespace run in front of a visible character collapses to one space. */
  lemma CollapseOfRun(w: string, b: string)
    requires w != [] && AllSpace(w)
    requires b != [] && !IsSpace(b[0])
    ensures Collapse(w + b) == " " + Collapse(b)
  {
    var u := w + b;
    assert u[0] == w[0] && u[1..] == w[1..] + b;
    CollapseUnfold(u);
    TrimStartOfRun(w, b);
  }

  /** Trimming the front of `w[1..] + b`, with `w` all whitespace and `b`
      starting with a visible character, leaves `b`. */
  lemma {:induction false} TrimStartOfRun(w: string, b: string)
    requires w != [] && AllSpace(w)
    requires b != [] && !IsSpace(b[0])
    ensures TrimStart(w[1..] + b) == b
    decreases |w|
  {
    if |w| == 1 {
      assert w[1..] + b == b;
    } else {
      assert (w[1..] + b)[0] == w[1];
      assert (w[1..] + b)[1..] == w[1..][1..] + b;
      TrimStartOfRun(w[1..], b);
    }
  }

  /** Trimming the front of `x + y` trims only `x` when `x` has a visible character. */
  lemma {:induction false} TrimStartConcat(x: string, y: string)
    requires !AllSpace(x)
    ensures TrimStart(x + y) == TrimStart(x) + y
    decreases |x|
  {
    assert (x + y)[0] == x[0];
    if IsSpace(x[0]) {
      assert (x + y)[1..] == x[1..] + y;
      TrimStartConcat(x[1..], y);
    }
  }

  /** A character in front of a collapsed string keeps it collapsed unless it
      starts a second whitespace character in a row. */
  lemma {:induction false} CollapsedCons(c: char, t: string)
    requires Collapsed(t)
    requires IsSpace(c) ==> c == ' ' && (t == [] || !IsSpace(t[0]))
    ensures Collapsed([c] + t)
  {
    var s := [c] + t;
    forall i | 0 <= i < |s| && IsSpace(s[i])
      ensures s[i] == ' ' && (i + 1 < |s| ==> !IsSpace(s[i + 1]))
    {
      if i > 0 {
        assert s[i] == t[i - 1];
        if i + 1 < |s| {
          assert s[i + 1] == t[i];
        }
      } else if |s| > 1 {
        assert s[1] == t[0];
      }
    }
  }

  /** Python `s[:n]` and JavaScript `s.slice(0, n)` for a non-negative `n`. */
  function Take(s: string, n: nat): (r: string)
    ensures |r| == if |s| <= n then |s| else n
    ensures r == s[..|r|]
  {
    if |s| <= n then s else s[..n]
  }

  /** `clean_text` / `cleanText` on a string: trim, collapse whitespace runs,
      truncate to MaxFieldLength characters. */
  function CleanText(s: string): (r: string)
    ensures |r| <= MaxFieldLength
    ensures r == [] || !IsSpace(r[0])
    ensures Collapsed(r)
    ensures r == [] <==> AllSpace(s)
  {
    var c := Collapse(Trim(s));
    CollapsedPrefix(c, if |c| <= MaxFieldLength then |c| else MaxFieldLength);
    Take(c, MaxFieldLength)
  }

  lemma {:induction false} CollapsedPrefix(s: string, n: nat)
    requires Collapsed(s) && n <= |s|
    ensures Collapsed(s[..n])
  {
    var p := s[..n];
    forall i | 0 <= i < |p| && IsSpace(p[i])
      ensures p[i] == ' ' && (i + 1 < |p| ==> !IsSpace(p[i + 1]))
    {
      assert p[i] == s[i];
      if i + 1 < |p| {
        assert p[i + 1] == s[i + 1];
      }
    }
  }

  lemma {:induction false} CollapsedTail(s: string)
    requires Collapsed(s) && s != []
    ensures Collapsed(s[1..])
  {
    var t := s[1..];
    forall i | 0 <= i < |t| && IsSpace(t[i])
      ensures t[i] == ' ' && (i + 1 < |t| ==> !IsSpace(t[i + 1]))
    {
      assert t[i] == s[i + 1];
      if i + 1 < |t| {
        assert t[i + 1] == s[i + 2];
      }
    }
  }

  /** What CleanText leaves unchanged: short, collapsed, no whitespace at either end. */
  predicate Normalized(s: string) {
    && |s| <= MaxFieldLength
    && Collapsed(s)
    && (s == [] || (!IsSpace(s[0]) && !IsSpace(s[|s| - 1])))
  }

  /** The non-whitespace characters of `s`, in order. */
  function NonSpace(s: string): string {
    if s == [] then [] else (if IsSpace(s[0]) then [] else [s[0]]) + NonSpace(s[1..])
  }

  lemma {:induction false} NonSpaceConcat(a: string, b: string)
    ensures NonSpace(a + b) == NonSpace(a) + NonSpace(b)
  {
    if a == [] {
      assert a + b == b;
    } else {
      assert (a + b)[0] == a[0];
      assert (a + b)[1..] == a[1..] + b;
      NonSpaceConcat(a[1..], b);
    }
  }

  lemma {:induction false} NonSpaceOfAllSpace(s: string)
    requires AllSpace(s)
    ensures NonSpace(s) == []
  {
    if s != [] {
      NonSpaceOfAllSpace(s[1..]);
    }
  }

  lemma {:induction false} NonSpaceOfNoSpace(s: string)
    requires NoSpace(s)
    ensures NonSpace(s) == s
  {
    if s != [] {
      NonSpaceOfNoSpace(s[1..]);
    }
  }

  lemma {:induction false} NonSpaceTrimStart(s: string)
    ensures NonSpace(TrimStart(s)) == NonSpace(s)
  {
    var k := |s| - |TrimStart(s)|;
    SplitAt(s, k);
    AllSpacePrefix(s, k);
    NonSpaceConcat(s[..k], s[k..]);
    NonSpaceOfAllSpace(s[..k]);
  }

  lemma {:induction false} NonSpaceTrimEnd(s: string)
    ensures NonSpace(TrimEnd(s)) == NonSpace(s)
  {
    var k := |TrimEnd(s)|;
    SplitAt(s, k);
    AllSpaceSuffix(s, k);
    NonSpaceConcat(s[..k], s[k..]);
    NonSpaceOfAllSpace(s[k..]);
  }

  lemma SplitAt(s: string, k: nat)
    requires k <= |s|
    ensures s[..k] + s[k..] == s
  {
  }

  lemma AllSpacePrefix(s: string, k: nat)
    requires k <= |s|
    requires forall i :: 0 <= i < k ==> IsSpace(s[i])
    ensures AllSpace(s[..k])
  {
  }

  lemma AllSpaceSuffix(s: string, k: nat)
    requires k <= |s|
    requires forall i :: k <= i < |s| ==> IsSpace(s[i])
    ensures AllSpace(s[k..])
  {
    forall i | 0 <= i < |s| - k
      ensures IsSpace(s[k..][i])
    {
      assert s[k..][i] == s[k + i];
    }
  }

  /** Trimming and collapsing never add, drop or reorder a visible character. */
  lemma {:induction false} NonSpaceCollapse(s: string)
    ensures NonSpace(Collapse(s)) == NonSpace(s)
    decreases |s|
  {
    if s != [] {
      if IsSpace(s[0]) {
        var t := TrimStart(s[1..]);
        NonSpaceCollapse(t);
        NonSpaceTrimStart(s[1..]);
        NonSpaceConcat([' '], Collapse(t));
      } else {
        NonSpaceCollapse(s[1..]);
        NonSpaceConcat([s[0]], Collapse(s[1..]));
      }
    }
  }

  /** The visible characters of a cleaned field are a prefix of the raw field's,
      and all of them when nothing was truncated. */
  lemma {:induction false} CleanTextKeepsVisibleText(s: string)
    ensures NonSpace(CleanText(s)) <= NonSpace(s)
    ensures |Collapse(Trim(s))| <= MaxFieldLength ==> NonSpace(CleanText(s)) == NonSpace(s)
  {
    NonSpaceTrimCollapse(s);
    NonSpaceTake(Collapse(Trim(s)), MaxFieldLength);
  }

  lemma {:induction false} NonSpaceTrimCollapse(s: string)
    ensures NonSpace(Collapse(Trim(s))) == NonSpace(s)
  {
    var t := TrimStart(s);
    NonSpaceTrimStart(s);
    NonSpaceTrimEnd(t);
    NonSpaceCollapse(TrimEnd(t));
  }

  /** Keeping a prefix keeps a prefix of the visible characters. */
  lemma {:induction false} NonSpaceTake(c: string, n: nat)
    ensures NonSpace(Take(c, n)) <= NonSpace(c)
    ensures |c| <= n ==> NonSpace(Take(c, n)) == NonSpace(c)
  {
    var r := Take(c, n);
    var rest := c[|r|..];
    assert c == r + rest;
    NonSpaceConcat(r, rest);
    PrefixOfConcat(NonSpace(r), NonSpace(rest));
  }

  lemma PrefixOfConcat(a: string, b: string)
    ensures a <= a + b
  {
    assert (a + b)[..|a|] == a;
  }

  lemma {:induction false} CollapseFixesCollapsed(s: string)
    requires Collapsed(s)
    ensures Collapse(s) == s
    decreases |s|
  {
    if s != [] {
      CollapsedTail(s);
      CollapseFixesCollapsed(s[1..]);
      if IsSpace(s[0]) {
        assert s[0] == ' ' && (|s| > 1 ==> !IsSpace(s[1]));
        CollapseKeepsSpaceHead(s);
      } else {
        CollapseKeepsOtherHead(s);
      }
    }
  }

  lemma CollapseKeepsSpaceHead(s: string)
    requires s != [] && s[0] == ' ' && (|s| > 1 ==> !IsSpace(s[1]))
    requires Collapse(s[1..]) == s[1..]
    ensures Collapse(s) == s
  {
    var t := s[1..];
    TrimStartKeeps(t);
    CollapseUnfold(s);
    HeadAndTail(s);
  }

  lemma CollapseKeepsOtherHead(s: string)
    requires s != [] && !IsSpace(s[0])
    requires Collapse(s[1..]) == s[1..]
    ensures Collapse(s) == s
  {
    CollapseUnfold(s);
    HeadAndTail(s);
  }

  lemma HeadAndTail(s: string)
    requires s != []
    ensures s == [s[0]] + s[1..]
  {
  }

  lemma TrimStartKeeps(t: string)
    requires t == [] || !IsSpace(t[0])
    ensures TrimStart(t) == t
  {
  }

  /** One step of Collapse. */
  lemma CollapseUnfold(s: string)
    requires s != []
    ensures IsSpace(s[0]) ==> Collapse(s) == [' '] + Collapse(TrimStart(s[1..]))
    ensures !IsSpace(s[0]) ==> Collapse(s) == [s[0]] + Collapse(s[1..])
  {
  }

  /** A normalised string is a fixed point of CleanText. */
  lemma {:induction false} CleanTextFixesNormalized(s: string)
    requires Normalized(s)
    ensures CleanText(s) == s
  {
    assert TrimStart(s) == s;
    assert TrimEnd(s) == s;
    CollapseFixesCollapsed(s);
  }

  /** CleanText is idempotent on every result that does not end in whitespace. */
  lemma {:induction false} CleanTextIdempotentUnlessTrailingSpace(s: string)
    requires CleanText(s) == [] || !IsSpace(CleanText(s)[|CleanText(s)| - 1])
    ensures CleanText(CleanText(s)) == CleanText(s)
  {
    CleanTextFixesNormalized(CleanText(s));
  }

  /** CleanText is idempotent on results shorter than MaxFieldLength: those were
      not truncated, so they keep the trimmed end. */
  lemma {:induction false} CleanTextIdempotentWhenShort(s: string)
    requires |CleanText(s)| < MaxFieldLength
    ensures CleanText(CleanText(s)) == CleanText(s)
  {
    var c := Collapse(Trim(s));
    assert CleanText(s) == c;
    CleanTextFixesNormalized(c);
  }

  /** Truncation can cut just after a space; a second pass then strips it, so
      CleanText is not idempotent in general. */
  lemma {:induction false} CleanTextNotIdempotent(x: string)
    requires |x| == MaxFieldLength - 1 && NoSpace(x)
    ensures CleanText(x + " b") == x + " "
    ensures CleanText(CleanText(x + " b")) == x
  {
    var s := x + " b";
    TrimOfWordSpaceWord(x);
    CollapsedWithSpace(x, 'b');
    CollapseFixesCollapsed(s);
    assert CleanText(s) == s[..MaxFieldLength];
    PrefixOfWordSpaceWord(x);
    TrimOfWordSpace(x);
    CollapsedOfNoSpace(x);
    CollapseFixesCollapsed(x);
  }

  /** Two words separated by any whitespace run clean to the words joined by
      one space, when the result fits in MaxFieldLength. */
  lemma {:induction false} CleanTextJoinsWords(a: string, w: string, b: string)
    requires a != [] && NoSpace(a) && b != [] && NoSpace(b)
    requires w != [] && AllSpace(w)
    requires |a| + 1 + |b| <= MaxFieldLength
    ensures CleanText(a + w + b) == a + " " + b
  {
    var s := a + w + b;
    assert s[0] == a[0] && s[|s| - 1] == b[|b| - 1];
    TrimStartKeeps(s);
    assert TrimEnd(s) == s;
    CollapseJoin(a, w, b);
    CollapsedOfNoSpace(a);
    CollapseFixesCollapsed(a);
    CollapsedOfNoSpace(b);
    CollapseFixesCollapsed(b);
  }

  lemma TrimOfWordSpaceWord(x: string)
    requires x != [] && NoSpace(x)
    ensures Trim(x + " b") == x + " b"
  {
    var s := x + " b";
    assert s[0] == x[0];
    TrimStartKeeps(s);
    assert TrimEnd(s) == s;
  }

  lemma PrefixOfWordSpaceWord(x: string)
    ensures (x + " b")[..|x| + 1] == x + " "
  {
  }

  lemma TrimOfWordSpace(x: string)
    requires x != [] && NoSpace(x)
    ensures Trim(x + " ") == x
  {
    var t := x + " ";
    assert t[0] == x[0];
    TrimStartKeeps(t);
    assert t[..|t| - 1] == x;
    assert TrimEnd(t) == TrimEnd(x);
  }

  lemma {:induction false} CollapsedOfNoSpace(x: string)
    requires NoSpace(x)
    ensures Collapsed(x)
  {
  }

  lemma {:induction false} CollapsedWithSpace(x: string, c: char)
    requires NoSpace(x) && !IsSpace(c)
    ensures Collapsed(x + [' ', c])
  {
    var s := x + [' ', c];
    assert forall i :: 0 <= i < |x| ==> s[i] == x[i];
    assert s[|x|] == ' ' && s[|x| + 1] == c;
  }

  // ---------------------------------------------------------------------------
  // Decimal digits

  predicate IsDigit(c: char) {
    '0' <= c <= '9'
  }

  predicate AllDigits(s: string) {
    forall i :: 0 <= i < |s| ==> IsDigit(s[i])
  }

  function DigitChar(d: nat): (c: char)
    requires d < 10
    ensures IsDigit(c)
  {
    ('0' as int + d) as char
  }

  function DigitValue(c: char): (d: nat)
    requires IsDigit(c)
    ensures d < 10 && DigitChar(d) == c
  {
    c as int - '0' as int
  }

  /** The value of a string of decimal digits (leading zeros allowed). */
  function ParseNat(s: string): nat
    requires AllDigits(s)
  {
    if s == [] then 0 else ParseNat(s[..|s| - 1]) * 10 + DigitValue(s[|s| - 1])
  }

  /** Python `str(n)` / JavaScript `String(n)` for a natural number. */
  function NatToString(n: nat): (r: string)
    ensures |r| > 0 && AllDigits(r)
    ensures r[0] == '0' ==> n == 0
  {
    if n < 10 then [DigitChar(n)] else NatToString(n / 10) + [DigitChar(n % 10)]
  }

  /** Decimal formatting has an inverse, so it is injective. */
  lemma {:induction false} ParseNatToString(n: nat)
    ensures ParseNat(NatToString(n)) == n
  {
    if n >= 10 {
      var s := NatToString(n);
      assert s[..|s| - 1] == NatToString(n / 10);
      ParseNatToString(n / 10);
    }
  }

  lemma NatToStringInjective(m: nat, n: nat)
    requires NatToString(m) == NatToString(n)
    ensures m == n
  {
    ParseNatToString(m);
    ParseNatToString(n);
  }

  /** Python `str(i)` for any integer. */
  function IntToString(i: int): (r: string)
    ensures i >= 0 ==> r == NatToString(i)
    ensures i < 0 ==> |r| > 1 && r[0] == '-' && r[1..] == NatToString(-i)
  {
    if i < 0 then "-" + NatToString(-i) else NatToString(i)
  }

  function Repeat(c: char, k: nat): (r: string)
    ensures |r| == k && forall i :: 0 <= i < k ==> r[i] == c
  {
    seq(k, _ => c)
  }

  /** Leading zeros do not change the value of a digit string. */
  lemma {:induction false} ParseNatLeadingZeros(k: nat, s: string)
    requires AllDigits(s)
    ensures AllDigits(Repeat('0', k) + s) && ParseNat(Repeat('0', k) + s) == ParseNat(s)
    decreases |s|
  {
    var z := Repeat('0', k);
    if s == [] {
      assert z + s == z;
      ParseNatOfZeros(k);
    } else {
      var t := z + s;
      assert t[..|t| - 1] == z + s[..|s| - 1];
      ParseNatLeadingZeros(k, s[..|s| - 1]);
    }
  }

  lemma {:induction false} ParseNatOfZeros(k: nat)
    ensures AllDigits(Repeat('0', k)) && ParseNat(Repeat('0', k)) == 0
  {
    if k > 0 {
      assert Repeat('0', k)[..k - 1] == Repeat('0', k - 1);
      ParseNatOfZeros(k - 1);
    }
  }

  /** `n` in decimal, left-padded with zeros to at least `width` characters:
      Python `f"{n:0<width>d}"` and JavaScript `String(n).padStart(width, "0")`
      for a natural number. */
  function ZeroPad(n: nat, width: nat): (r: string)
    ensures |r| == if |NatToString(n)| < width then width else |NatToString(n)|
    ensures AllDigits(r) && ParseNat(r) == n
    ensures r[|r| - |NatToString(n)|..] == NatToString(n)
  {
    var s := NatToString(n);
    var k := if |s| < width then width - |s| else 0;
    ParseNatToString(n);
    ParseNatLeadingZeros(k, s);
    assert (Repeat('0', k) + s)[k..] == s;
    Repeat('0', k) + s
  }

  /** Python `f"{i:02d}"` for any integer: a minus sign counts toward the width. */
  function Format02(i: int): (r: string)
    ensures i >= 0 ==> |r| == (if i < 10 then 2 else |NatToString(i)|)
    ensures i >= 0 ==> AllDigits(r) && ParseNat(r) == i
    ensures i >= 0 ==> r[|r| - |NatToString(i)|..] == NatToString(i)
    ensures i < 0 ==> |r| > 1 && r[0] == '-' && r[1..] == NatToString(-i)
  {
    if i < 0 then IntToString(i) else ZeroPad(i, 2)
  }

  function Pow10(k: nat): (r: nat)
    ensures r >= 1
  {
    if k == 0 then 1 else 10 * Pow10(k - 1)
  }

  /** For k >= 1, `NatToString(n)` has exactly `k` digits when 10^(k-1) <= n < 10^k. */
  lemma {:induction false} NatToStringLength(n: nat, k: nat)
    ensures k >= 1 && n < Pow10(k) ==> |NatToString(n)| <= k
    ensures k >= 1 && n >= Pow10(k - 1) ==> |NatToString(n)| >= k
  {
    if n >= 10 && k >= 2 {
      NatToStringLength(n / 10, k - 1);
    }
  }

  /** A number that already has `width` digits is not padded. */
  lemma ZeroPadExact(n: nat, width: nat)
    requires |NatToString(n)| == width
    ensures ZeroPad(n, width) == NatToString(n)
  {
    assert Repeat('0', 0) + NatToString(n) == NatToString(n);
  }

  /** Index of the first `c` in `s`, or |s| when there is none (`str.find`
      and `indexOf` with the miss mapped to the length). */
  function IndexOf(s: string, c: char): (r: nat)
    ensures r <= |s|
    ensures r < |s| ==> s[r] == c
    ensures forall i :: 0 <= i < r ==> s[i] != c
  {
    if s == [] then 0 else if s[0] == c then 0 else 1 + IndexOf(s[1..], c)
  }

  /** The last index of `c` in `s`, or -1 (`str.rfind`, `lastIndexOf`). */
  function LastIndexOf(s: string, c: char): (r: int)
    ensures -1 <= r < |s|
    ensures r >= 0 ==> s[r] == c
    ensures forall k :: r < k < |s| ==> s[k] != c
    decreases |s|
  {
    if s == [] then -1 else if s[|s| - 1] == c then |s| - 1 else LastIndexOf(s[..|s| - 1], c)
  }

  /** When `a` ends in `c` and `b` has none, the last `c` of `a + b` is the
      end of `a`. */
  lemma LastIndexOfAfter(a: string, b: string, c: char)
    requires a != [] && a[|a| - 1] == c && c !in b
    ensures LastIndexOf(a + b, c) == |a| - 1
  {
    var s := a + b;
    var r := LastIndexOf(s, c);
    assert forall k :: |a| <= k < |s| ==> s[k] == b[k - |a|];
    assert s[|a| - 1] == c;
  }
}
