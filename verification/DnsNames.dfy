/** DNS-label construction: an instance and a suffix are normalised, the instance is cut to leave
    room, and the cut is tidied again. Labels follow section 2.1 of RFC 1123, with the limit of 63
    octets of section 2.3.4 of RFC 1035. */
module DnsNames {
  import opened Wrappers
  import opened Strings
  import opened Sorting

  const MAX_LENGTH: nat := 63

  predicate IsAlnum(c: char) { 'a' <= c <= 'z' || '0' <= c <= '9' }

  /** Every run of other characters becomes one hyphen; `pending` says that a run is open. */
  function Collapse(s: string, pending: bool): string {
    if s == "" then ""
    else if IsAlnum(s[0]) then [s[0]] + Collapse(s[1..], false)
    else if pending then Collapse(s[1..], true)
    else "-" + Collapse(s[1..], true)
  }

  function LowerNormal(s: string): string { RightStrip(LeftStrip(Collapse(s, false), '-'), '-') }

  function Normalize(s: string): string { LowerNormal(LowerAll(s)) }

  /** Letters and digits, with single hyphens between them. */
  predicate IsNormal(s: string) {
    && (forall i :: 0 <= i < |s| ==> IsAlnum(s[i]) || s[i] == '-')
    && (forall i :: 0 < i < |s| ==> s[i - 1] != '-' || s[i] != '-')
    && (s != "" ==> s[0] != '-' && s[|s| - 1] != '-')
  }

  predicate IsDnsLabel(s: string) {
    && 1 <= |s| <= 63
    && (forall i :: 0 <= i < |s| ==> 'a' <= s[i] <= 'z' || '0' <= s[i] <= '9' || s[i] == '-')
    && s[0] != '-' && s[|s| - 1] != '-'
  }

  /** Single hyphens, though possibly at the ends. */
  predicate IsCollapsed(s: string) {
    && (forall i :: 0 <= i < |s| ==> IsAlnum(s[i]) || s[i] == '-')
    && (forall i :: 0 < i < |s| ==> s[i - 1] != '-' || s[i] != '-')
  }

  lemma {:induction false} CollapseCollapses(s: string, pending: bool)
    ensures IsCollapsed(Collapse(s, pending))
    ensures pending && Collapse(s, pending) != "" ==> Collapse(s, pending)[0] != '-'
    ensures Collapse(s, pending) != "" && Collapse(s, pending)[0] != '-' ==> exists i :: 0 <= i < |s| && IsAlnum(s[i])
  {
    if s != "" {
      CollapseCollapses(s[1..], !IsAlnum(s[0]));
    }
  }

  lemma {:induction false} LeftStripKeeps(s: string)
    requires IsCollapsed(s)
    ensures IsCollapsed(LeftStrip(s, '-')) && (LeftStrip(s, '-') != "" ==> LeftStrip(s, '-')[0] != '-')
  {
    if s != "" && s[0] == '-' { LeftStripKeeps(s[1..]); }
  }

  lemma {:induction false} RightStripKeeps(s: string)
    requires IsCollapsed(s) && (s != "" ==> s[0] != '-')
    ensures IsNormal(RightStrip(s, '-')) && RightStrip(s, '-') <= s
    ensures s != "" ==> RightStrip(s, '-') != ""
  {
    if s != "" && s[|s| - 1] == '-' {
      assert s[..|s| - 1] != "" && s[..|s| - 1][0] == s[0];
      RightStripKeeps(s[..|s| - 1]);
    }
  }

  lemma NormalizeIsNormal(s: string)
    ensures IsNormal(Normalize(s))
  {
    CollapseCollapses(LowerAll(s), false);
    LeftStripKeeps(Collapse(LowerAll(s), false));
    RightStripKeeps(LeftStrip(Collapse(LowerAll(s), false), '-'));
  }

  lemma {:induction false} CollapseOfNormal(s: string, pending: bool)
    requires IsCollapsed(s) && (pending && s != "" ==> s[0] != '-')
    ensures Collapse(s, pending) == s
  {
    if s != "" {
      assert s == [s[0]] + s[1..];
      CollapseOfNormal(s[1..], !IsAlnum(s[0]));
    }
  }

  lemma NormalIsFixed(s: string)
    requires IsNormal(s)
    ensures Normalize(s) == s
  {
    assert LowerAll(s) == s;
    NormalStays(s);
    hide LowerNormal;
  }

  lemma NormalStays(s: string)
    requires IsNormal(s)
    ensures LowerNormal(s) == s
  {
    CollapseOfNormal(s, false);
    LeftStripped(s, '-', 0);
    RightStripped(s, '-', |s|);
    assert s[0..] == s && s[..|s|] == s;
    hide Collapse, LeftStrip, RightStrip, IsNormal;
  }

  /** Normalising twice is normalising once. */
  lemma NormalizeIsIdempotent(s: string)
    ensures Normalize(Normalize(s)) == Normalize(s)
  {
    NormalizeIsNormal(s);
    NormalIsFixed(Normalize(s));
  }

  lemma {:induction false} CollapseKeepsAlnum(s: string, pending: bool, i: nat)
    requires i < |s| && IsAlnum(s[i])
    ensures s[i] in Collapse(s, pending)
  {
    if i != 0 { CollapseKeepsAlnum(s[1..], !IsAlnum(s[0]), i - 1); }
  }

  lemma {:induction false} StripsKeepAlnum(s: string, c: char)
    requires c in s && IsAlnum(c)
    ensures c in LeftStrip(s, '-') && c in RightStrip(s, '-')
  {
    if s[0] == '-' { StripsKeepAlnum(s[1..], c); }
    if s[|s| - 1] == '-' {
      assert s == s[..|s| - 1] + [s[|s| - 1]];
      StripsKeepAlnum(s[..|s| - 1], c);
    }
  }

  predicate IsLetterOrDigit(c: char) { 'a' <= c <= 'z' || 'A' <= c <= 'Z' || '0' <= c <= '9' }

  predicate HasAlnum(s: string) { exists i :: 0 <= i < |s| && IsLetterOrDigit(s[i]) }

  lemma {:induction false} CollapseOfNone(s: string, pending: bool)
    requires forall i :: 0 <= i < |s| ==> !IsAlnum(s[i])
    ensures Collapse(s, pending) == if pending || s == "" then "" else "-"
  {
    if s != "" { CollapseOfNone(s[1..], true); }
  }

  /** Normalising leaves nothing exactly when there is no letter or digit to keep. */
  lemma NormalizedIsEmpty(s: string)
    ensures Normalize(s) == "" <==> !HasAlnum(s)
  {
    var lower := LowerAll(s);
    if HasAlnum(s) {
      var i :| 0 <= i < |s| && IsLetterOrDigit(s[i]);
      assert lower[i] == Lower(s[i]);
      CollapseKeepsAlnum(lower, false, i);
      StripsKeepAlnum(Collapse(lower, false), lower[i]);
      StripsKeepAlnum(LeftStrip(Collapse(lower, false), '-'), lower[i]);
    } else {
      forall i | 0 <= i < |lower| ensures !IsAlnum(lower[i]) { assert lower[i] == Lower(s[i]); }
      CollapseOfNone(lower, false);
      assert LeftStrip("-", '-') == LeftStrip("", '-') == "";
    }
  }

  /* ----- What normalising does ----- */

  lemma {:induction false} CollapseOfConcat(a: string, b: string, pending: bool)
    ensures Collapse(a + b, pending)
            == Collapse(a, pending) + Collapse(b, if a == "" then pending else !IsAlnum(a[|a| - 1]))
  {
    if a == "" {
      assert a + b == b;
    } else {
      assert (a + b)[1..] == a[1..] + b;
      CollapseOfConcat(a[1..], b, !IsAlnum(a[0]));
    }
  }

  predicate AllHyphens(s: string) { forall i :: 0 <= i < |s| ==> s[i] == '-' }

  predicate Short(s: string) { s == "" || s == "-" }

  /** What stands between hyphens is what the strips leave. */
  lemma StripsLeave(front: string, s: string, back: string)
    requires AllHyphens(front) && AllHyphens(back) && (s != "" ==> s[0] != '-' && s[|s| - 1] != '-')
    ensures RightStrip(LeftStrip(front + s + back, '-'), '-') == s
  {
    var all := front + s + back;
    if s == "" {
      LeftStripped(all, '-', |all|);
      RightStripped("", '-', 0);
    } else {
      LeftStripped(all, '-', |front|);
      assert all[|front|..] == s + back;
      RightStripped(s + back, '-', |s|);
    }
  }

  /** A collapsed text ends in a hyphen exactly when the text did not end in a letter or digit. */
  lemma {:induction false} CollapseEnds(s: string, pending: bool)
    ensures Collapse(s, pending) != "" ==>
              (Collapse(s, pending)[|Collapse(s, pending)| - 1] == '-' <==> !IsAlnum(s[|s| - 1]))
    ensures Collapse(s, pending) == "" ==> s == "" || (pending && !IsAlnum(s[|s| - 1]))
  {
    if s != "" { CollapseEnds(s[1..], !IsAlnum(s[0])); }
  }

  /** With a run open before it, a text collapses to what it does alone, less a leading hyphen. */
  lemma PendingCollapse(s: string)
    ensures Collapse(s, false) == (if s != "" && !IsAlnum(s[0]) then "-" else "") + Collapse(s, true)
    ensures Collapse(s, true) != "" ==> Collapse(s, true)[0] != '-'
  {
    CollapseCollapses(s, true);
  }

  lemma NoDouble(s: string, i: nat)
    requires IsCollapsed(s) && 0 < i < |s|
    ensures s[i - 1] != '-' || s[i] != '-'
  {
  }

  /** A collapsed text is its stripped core, with at most one hyphen at either end. */
  lemma Core(s: string) returns (front: string, core: string, back: string)
    requires IsCollapsed(s)
    ensures s == front + core + back && Short(front) && Short(back)
    ensures core != "" ==> core[0] != '-' && core[|core| - 1] != '-'
    ensures core == "" ==> back == ""
    ensures core == RightStrip(LeftStrip(s, '-'), '-')
  {
    hide LeftStrip, RightStrip, IsCollapsed;
    if 2 <= |s| {
      NoDouble(s, 1);
      NoDouble(s, |s| - 1);
    }
    front := if s != "" && s[0] == '-' then "-" else "";
    var rest := s[|front|..];
    back := if rest != "" && rest[|rest| - 1] == '-' then "-" else "";
    core := rest[..|rest| - |back|];
    assert s == front + core + back;
    assert AllHyphens(front) && AllHyphens(back);
    assert core != "" ==> core[0] == s[|front|] && core[|core| - 1] == s[|front| + |core| - 1];
    StripsLeave(front, core, back);
  }

  function Hyphened(a: string, b: string): string { if a == "" then b else if b == "" then a else a + "-" + b }

  /** What a separator adds to a collapsed text: a hyphen, unless the text ends in one. */
  function Separator(x: string): string { if x != "" && !IsAlnum(x[|x| - 1]) then "" else "-" }

  lemma SeparatorIs(x: string)
    ensures IsCollapsed(Collapse(x, false))
    ensures var a := Collapse(x, false); Separator(x) == "" <==> a != "" && a[|a| - 1] == '-'
  {
    CollapseCollapses(x, false);
    CollapseEnds(x, false);
  }

  lemma CollapseAround(x: string, c: char, y: string)
    requires !IsAlnum(c)
    ensures Collapse(x + [c] + y, false) == Collapse(x, false) + Separator(x) + Collapse(y, true)
  {
    CollapseOfConcat(x + [c], y, false);
    CollapseOfConcat(x, [c], false);
    assert [c][1..] == "" && Collapse("", true) == "";
    assert Collapse([c], x != "" && !IsAlnum(x[|x| - 1])) == Separator(x);
    hide Collapse;
  }

  lemma JoinedCores(x: string, c: char, y: string)
    requires !IsAlnum(c)
    ensures LowerNormal(x + [c] + y) == Hyphened(LowerNormal(x), LowerNormal(y))
  {
    hide Collapse, LeftStrip, RightStrip, IsCollapsed, Separator, LowerNormal, Hyphened, Short;
    NormalIsStripped(x);
    NormalIsStripped(y);
    NormalIsStripped(x + [c] + y);
    SeparatorIs(x);
    SeparatorIs(y);
    CollapseAround(x, c, y);
    PendingCollapse(y);
    var f, a, g := Core(Collapse(x, false));
    var h, b, k := Core(Collapse(y, false));
    var rest := Collapse(y, true);
    assert Collapse(y, false) == rest || Collapse(y, false) == "-" + rest by { assert "" + rest == rest; }
    SeparatorIsShort(x);
    CoresMeet(f, a, g, Separator(x), rest, h, b, k);
  }

  lemma NormalIsStripped(s: string)
    ensures LowerNormal(s) == RightStrip(LeftStrip(Collapse(s, false), '-'), '-')
  {
  }

  lemma SeparatorIsShort(x: string)
    ensures Short(Separator(x))
  {
  }

  lemma CoresMeet(f: string, a: string, g: string, middle: string, rest: string, h: string, b: string, k: string)
    requires Short(f) && Short(g) && Short(h) && Short(k) && Short(middle)
    requires (a != "" ==> a[0] != '-' && a[|a| - 1] != '-') && (b != "" ==> b[0] != '-' && b[|b| - 1] != '-')
    requires (a == "" ==> g == "") && (b == "" ==> k == "") && (rest != "" ==> rest[0] != '-')
    requires h + b + k == rest || h + b + k == "-" + rest
    requires middle == "" <==> f + a + g != "" && (f + a + g)[|f + a + g| - 1] == '-'
    ensures RightStrip(LeftStrip(f + a + g + middle + rest, '-'), '-') == Hyphened(a, b)
  {
    hide LeftStrip, RightStrip;
    RestIsCore(rest, h, b, k);
    if a == "" { BackAlone(f, a, g, middle, b, k); } else {
      OneHyphen(f, a, g, middle);
      FrontAndBack(f, a, g, middle, b, k);
    }
    hide Short;
  }

  lemma BackAlone(f: string, a: string, g: string, middle: string, b: string, k: string)
    requires Short(f) && Short(middle) && Short(k) && a == "" && g == ""
    requires b != "" ==> b[0] != '-' && b[|b| - 1] != '-'
    ensures RightStrip(LeftStrip(f + a + g + middle + (b + k), '-'), '-') == b
  {
    hide LeftStrip, RightStrip;
    assert f + a + g == f;
    assert f + middle + (b + k) == (f + middle) + b + k;
    StripsLeave(f + middle, b, k);
  }

  lemma OneHyphen(f: string, a: string, g: string, middle: string)
    requires Short(g) && Short(middle) && a != "" && a[|a| - 1] != '-'
    requires middle == "" <==> f + a + g != "" && (f + a + g)[|f + a + g| - 1] == '-'
    ensures g + middle == "-"
  {
    var s := f + a + g;
    assert s[|s| - 1] == if g == "" then a[|a| - 1] else '-';
  }

  lemma FrontAndBack(f: string, a: string, g: string, middle: string, b: string, k: string)
    requires AllHyphens(f) && AllHyphens(k) && g + middle == "-" && a != "" && a[0] != '-' && a[|a| - 1] != '-'
    requires (b != "" ==> b[0] != '-' && b[|b| - 1] != '-') && (b == "" ==> k == "")
    ensures RightStrip(LeftStrip(f + a + g + middle + (b + k), '-'), '-') == Hyphened(a, b)
  {
    hide LeftStrip, RightStrip;
    assert f + a + g + middle == f + a + (g + middle);
    if b == "" {
      assert f + a + "-" + (b + k) == f + a + "-";
      StripsLeave(f, a, "-");
    } else {
      var joined := a + "-" + b;
      assert f + a + "-" + (b + k) == f + joined + k;
      StripsLeave(f, joined, k);
    }
  }

  lemma RestIsCore(rest: string, h: string, b: string, k: string)
    requires Short(h) && Short(k) && (b != "" ==> b[0] != '-') && (b == "" ==> k == "")
    requires rest != "" ==> rest[0] != '-'
    requires h + b + k == rest || h + b + k == "-" + rest
    ensures rest == b + k
  {
    var s := h + b + k;
    if h == "-" {
      assert s[0] == '-' && s[1..] == b + k;
      assert s == "-" + rest ==> s[1..] == rest;
    } else {
      assert s == b + k && (s == "" || s[0] != '-');
      assert ("-" + rest)[0] == '-';
    }
  }

  lemma LowerAllOfConcat(a: string, b: string)
    ensures LowerAll(a + b) == LowerAll(a) + LowerAll(b)
  {
  }

  /** Normalising, piece by piece: a character that is neither letter nor digit separates, and the pieces
      on its two sides, normalised, are joined by one hyphen, or stand alone where the other is empty. */
  lemma NormalizeJoins(x: string, c: char, y: string)
    requires !IsLetterOrDigit(c)
    ensures Normalize(x + [c] + y) ==
            if Normalize(x) == "" then Normalize(y) else if Normalize(y) == "" then Normalize(x)
            else Normalize(x) + "-" + Normalize(y)
  {
    LowerAllOfConcat(x + [c], y);
    LowerAllOfConcat(x, [c]);
    assert LowerAll([c]) == [Lower(c)];
    JoinedCores(LowerAll(x), Lower(c), LowerAll(y));
    hide LowerAll, Collapse;
  }

  /** And a piece of letters and digits alone is put into lower case. */
  lemma NormalizeOfWord(w: string)
    requires forall i :: 0 <= i < |w| ==> IsLetterOrDigit(w[i])
    ensures |Normalize(w)| == |w|
    ensures forall i :: 0 <= i < |w| ==> Normalize(w)[i] == if 'A' <= w[i] <= 'Z' then 'a' + (w[i] - 'A') else w[i]
  {
    LowerWord(w);
    NormalStays(LowerAll(w));
    hide LowerNormal, LowerAll, IsNormal;
  }

  lemma LowerWord(w: string)
    requires forall i :: 0 <= i < |w| ==> IsLetterOrDigit(w[i])
    ensures |LowerAll(w)| == |w| && IsNormal(LowerAll(w))
    ensures forall i :: 0 <= i < |w| ==> LowerAll(w)[i] == if 'A' <= w[i] <= 'Z' then 'a' + (w[i] - 'A') else w[i]
  {
    assert forall i :: 0 <= i < |w| ==> IsAlnum(LowerAll(w)[i]);
  }

  /* ----- Names ----- */

  datatype NameError = NoInstance | NoSuffix | SuffixTooLong

  /** Python's `s[:k]`. */
  function SliceTo(s: string, k: int): string {
    if k >= |s| then s else if k >= 0 then s[..k] else if -k >= |s| then "" else s[..|s| + k]
  }

  /** What is left of a normalised instance beside a suffix. */
  function Cut(base: string, tail: string): string { RightStrip(SliceTo(base, MAX_LENGTH - |tail| - 1), '-') }

  /** The name of an Azure resource of an instance. */
  function ResourceName(instance: string, suffix: string): Result<string, NameError> {
    var base, tail := Normalize(instance), Normalize(suffix);
    if base == "" then Failure(NoInstance)
    else if tail == "" then Failure(NoSuffix)
    else if MAX_LENGTH <= |tail| then Failure(SuffixTooLong)
    else Success(Cut(base, tail) + "-" + tail)
  }

  function ClusterName(instance: string): Result<string, NameError> {
    var base := Normalize(instance);
    if base == "" then Failure(NoInstance) else Success(RightStrip(SliceTo(base, MAX_LENGTH), '-'))
  }

  /** The name of a local resource, whose suffix is used as it is. */
  function LocalName(tenant: string, suffix: string): Result<string, NameError> {
    var base := Normalize(tenant);
    if base == "" then Failure(NoInstance)
    else Success(Cut(base, suffix) + "-" + suffix)
  }

  /** A cut of a normal name, tidied: normal, a prefix, empty only if the cut was, and at most one
      character short of what fits. */
  lemma CutIsNormal(base: string, k: nat)
    requires IsNormal(base) && base != ""
    ensures var cut := RightStrip(SliceTo(base, k), '-');
            && IsNormal(cut) && |cut| <= k && cut <= base && (cut == "" <==> k == 0)
            && if |base| <= k then cut == base else k - 1 <= |cut|
  {
    var cut := SliceTo(base, k);
    RightStripKeeps(cut);
  }

  /** What can end a label: letters, digits and hyphens, the last of them no hyphen. */
  predicate EndsLabel(tail: string) {
    tail != "" && tail[|tail| - 1] != '-' && forall i :: 0 <= i < |tail| ==> IsAlnum(tail[i]) || tail[i] == '-'
  }

  lemma Hyphenated(front: string, tail: string)
    requires IsNormal(front)
    ensures IsDnsLabel(front + "-" + tail) <==> front != "" && EndsLabel(tail) && |front| + 1 + |tail| <= MAX_LENGTH
  {
    var s := front + "-" + tail;
    assert s[|s| - 1] == if tail != "" then tail[|tail| - 1] else '-';
    assert s[0] == if front != "" then front[0] else '-';
    assert forall i :: 0 <= i < |tail| ==> s[|front| + 1 + i] == tail[i];
    assert forall i :: 0 <= i < |s| ==>
        s[i] == if i < |front| then front[i] else if i == |front| then '-' else tail[i - |front| - 1];
  }

  /** The parts of an accepted Azure name: the whole normalised suffix, and as much of the instance as
      fits, or one character less where that would end in a hyphen. */
  lemma ResourceNameKeepsSuffix(instance: string, suffix: string) returns (front: string)
    requires ResourceName(instance, suffix).Success?
    ensures ResourceName(instance, suffix).value == front + "-" + Normalize(suffix) && front <= Normalize(instance)
    ensures if |Normalize(instance)| + 1 + |Normalize(suffix)| <= MAX_LENGTH then front == Normalize(instance)
            else MAX_LENGTH - 1 <= |ResourceName(instance, suffix).value| <= MAX_LENGTH
  {
    NormalizeIsNormal(instance);
    hide Normalize;
    var k := MAX_LENGTH - |Normalize(suffix)| - 1;
    CutIsNormal(Normalize(instance), k);
    front := RightStrip(SliceTo(Normalize(instance), k), '-');
  }

  /** An Azure name is refused exactly when one part has no letter or digit, or when the suffix is
      too long; an accepted name is a DNS label exactly when its normalised suffix takes at most 61
      characters. One of 62 is accepted too, and then gives a name with a leading hyphen. */
  lemma ResourceNameIsLabel(instance: string, suffix: string)
    ensures ResourceName(instance, suffix).Success? <==>
              HasAlnum(instance) && HasAlnum(suffix) && |Normalize(suffix)| < MAX_LENGTH
    ensures ResourceName(instance, suffix).Success? ==>
              (IsDnsLabel(ResourceName(instance, suffix).value) <==> |Normalize(suffix)| <= 61)
  {
    var base, tail := Normalize(instance), Normalize(suffix);
    NormalizedIsEmpty(instance);
    NormalizedIsEmpty(suffix);
    NormalizeIsNormal(instance);
    NormalizeIsNormal(suffix);
    hide Normalize, HasAlnum;
    if ResourceName(instance, suffix).Success? {
      CutIsNormal(base, MAX_LENGTH - |tail| - 1);
      Hyphenated(RightStrip(SliceTo(base, MAX_LENGTH - |tail| - 1), '-'), tail);
    }
  }

  /** An accepted cluster name is always a DNS label: the normalised instance, or as much of it as fits,
      or one character less where that would end in a hyphen. */
  lemma ClusterNameIsLabel(instance: string)
    ensures ClusterName(instance).Success? <==> HasAlnum(instance)
    ensures ClusterName(instance).Success? ==>
              && IsDnsLabel(ClusterName(instance).value) && ClusterName(instance).value <= Normalize(instance)
              && if |Normalize(instance)| <= 63 then ClusterName(instance).value == Normalize(instance)
                 else 62 <= |ClusterName(instance).value|
  {
    NormalizedIsEmpty(instance);
    NormalizeIsNormal(instance);
    hide Normalize, HasAlnum;
    if ClusterName(instance).Success? { CutIsNormal(Normalize(instance), MAX_LENGTH); }
  }

  /** A local name is a DNS label exactly when its suffix can end one and takes at most 61 characters;
      a longer one makes the slice bound zero or negative and is never refused. */
  lemma LocalNameIsLabel(tenant: string, suffix: string)
    ensures LocalName(tenant, suffix).Success? <==> HasAlnum(tenant)
    ensures LocalName(tenant, suffix).Success? ==>
              (IsDnsLabel(LocalName(tenant, suffix).value) <==> EndsLabel(suffix) && |suffix| <= 61)
  {
    NormalizedIsEmpty(tenant);
    NormalizeIsNormal(tenant);
    hide Normalize, HasAlnum;
    var base, k := Normalize(tenant), MAX_LENGTH - |suffix| - 1;
    if base != "" && 0 <= k {
      CutIsNormal(base, k);
      Hyphenated(RightStrip(SliceTo(base, k), '-'), suffix);
    }
  }

  /** The parts of a local name: the whole suffix, and as much of the tenant as fits, or one character
      less; and beside a suffix that leaves no room the tenant loses as many characters at its end as
      the suffix has too many. */
  lemma LocalNameKeepsSuffix(tenant: string, suffix: string) returns (front: string)
    requires LocalName(tenant, suffix).Success?
    ensures LocalName(tenant, suffix).value == front + "-" + suffix && front <= Normalize(tenant)
    ensures if |Normalize(tenant)| + 1 + |suffix| <= 63 then front == Normalize(tenant)
            else if |suffix| <= 62 then 62 <= |LocalName(tenant, suffix).value| <= 63
            else
              var left := |Normalize(tenant)| - (|suffix| - 62);
              left - 1 <= |front| <= if left < 0 then 0 else left
  {
    NormalizeIsNormal(tenant);
    hide Normalize;
    var base, k := Normalize(tenant), MAX_LENGTH - |suffix| - 1;
    front := Cut(base, suffix);
    if 0 <= k {
      CutIsNormal(base, k);
    } else {
      var left := |base| + k;
      if 0 < left {
        assert SliceTo(base, k) == SliceTo(base, left);
        CutIsNormal(base, left);
      }
    }
  }

  /** The longer suffix puts back, between its own start and the shorter one, just what the cut of the
      shorter one's name has more. */
  predicate PutsBack(base: string, shorter: string, longer: string, x: string) {
    longer == x + "-" + shorter && Cut(base, shorter) == Cut(base, longer) + "-" + x
  }

  lemma HyphenatedAlike(f: string, s: string, g: string, t: string) returns (x: string)
    requires |s| < |t| && f + "-" + s == g + "-" + t
    ensures t == x + "-" + s && f == g + "-" + x
  {
    var name, k := f + "-" + s, |t| - |s| - 1;
    x := t[..k];
    assert name == g + "-" + t;
    forall i | 0 <= i < |t| ensures t[i] == if i < k then x[i] else if i == k then '-' else s[i - k - 1] {
      assert name[|g| + 1 + i] == t[i];
    }
    assert t == x + "-" + s;
    forall i | 0 <= i < |f| ensures f[i] == (g + "-" + x)[i] { assert name[i] == f[i]; }
  }

  /** Exactly when two suffixes of one instance give the same name, cut or not: they normalise alike,
      or the longer puts back what the shorter one's name keeps beyond the longer one's cut. */
  lemma NamesCollideExactly(instance: string, a: string, b: string)
    requires ResourceName(instance, a).Success? && ResourceName(instance, b).Success?
    requires |Normalize(a)| <= |Normalize(b)|
    ensures ResourceName(instance, a) == ResourceName(instance, b) <==>
              || Normalize(a) == Normalize(b)
              || exists x :: PutsBack(Normalize(instance), Normalize(a), Normalize(b), x)
  {
    var base, s, t := Normalize(instance), Normalize(a), Normalize(b);
    assert ResourceName(instance, a).value == Cut(base, s) + "-" + s;
    assert ResourceName(instance, b).value == Cut(base, t) + "-" + t;
    hide Normalize, Cut, ResourceName;
    if Cut(base, s) + "-" + s == Cut(base, t) + "-" + t {
      if |s| == |t| {
        assert (Cut(base, s) + "-" + s)[|Cut(base, s)| + 1..] == s;
        assert (Cut(base, t) + "-" + t)[|Cut(base, t)| + 1..] == t;
      } else {
        var x := HyphenatedAlike(Cut(base, s), s, Cut(base, t), t);
        assert PutsBack(base, s, t, x);
      }
    }
    if x :| PutsBack(base, s, t, x) {
      assert Cut(base, s) + "-" + s == Cut(base, t) + "-" + (x + "-" + s);
    }
  }

  /** So without truncation names collide exactly when the suffixes normalise alike. */
  lemma UncutNamesAreDistinct(instance: string, a: string, b: string)
    requires ResourceName(instance, a).Success? && ResourceName(instance, b).Success?
    requires |Normalize(instance)| + 1 + |Normalize(a)| <= MAX_LENGTH
    requires |Normalize(instance)| + 1 + |Normalize(b)| <= MAX_LENGTH
    ensures ResourceName(instance, a) == ResourceName(instance, b) <==> Normalize(a) == Normalize(b)
  {
    NormalizeIsNormal(instance);
    CutIsNormal(Normalize(instance), MAX_LENGTH - |Normalize(a)| - 1);
    CutIsNormal(Normalize(instance), MAX_LENGTH - |Normalize(b)| - 1);
    if |Normalize(a)| <= |Normalize(b)| {
      NamesCollideExactly(instance, a, b);
    } else {
      NamesCollideExactly(instance, b, a);
    }
    hide Normalize, ResourceName;
  }

  /** And with it every instance that just fits beside a suffix collides at each of its hyphens: the
      names of z-x with the suffixes s and x-s are one. */
  lemma CutNamesCollide(z: string, x: string, s: string)
    requires IsNormal(z) && IsNormal(x) && IsNormal(s) && z != "" && x != "" && s != ""
    requires |z| + 1 + |x| + 1 + |s| == MAX_LENGTH
    ensures Normalize(s) != Normalize(x + "-" + s)
    ensures ResourceName(z + "-" + x, s).Success?
    ensures ResourceName(z + "-" + x, s) == ResourceName(z + "-" + x, x + "-" + s)
  {
    var base, t := z + "-" + x, x + "-" + s;
    JoinedIsNormal(z, x);
    JoinedIsNormal(x, s);
    NormalIsFixed(base);
    NormalIsFixed(s);
    NormalIsFixed(t);
    CutIsNormal(base, MAX_LENGTH - |s| - 1);
    assert SliceTo(base, MAX_LENGTH - |t| - 1) == z;
    CutIsNormal(z, |z|);
    assert PutsBack(base, s, t, x);
    hide Normalize, IsNormal, Cut, PutsBack;
    NamesCollideExactly(base, s, t);
  }

  lemma JoinedIsNormal(front: string, back: string)
    requires IsNormal(front) && IsNormal(back) && front != "" && back != ""
    ensures IsNormal(front + "-" + back)
  {
    var s := front + "-" + back;
    assert forall i :: 0 <= i < |s| ==>
        s[i] == if i < |front| then front[i] else if i == |front| then '-' else back[i - |front| - 1];
  }

  /* ----- Node pools ----- */

  datatype Pool = Pool(name: string, controlPlane: bool)

  datatype PoolError = NotOneControlPlane | NoWorker

  function Select(pools: seq<Pool>, controlPlane: bool): seq<Pool> {
    if pools == [] then [] else
      (if pools[0].controlPlane == controlPlane then [pools[0]] else []) + Select(pools[1..], controlPlane)
  }

  function Partition(pools: seq<Pool>): Result<(Pool, seq<Pool>), PoolError> {
    var controls, workers := Select(pools, true), Select(pools, false);
    if |controls| != 1 then Failure(NotOneControlPlane)
    else if workers == [] then Failure(NoWorker)
    else Success((controls[0], workers))
  }

  lemma {:induction false} SelectNone(pools: seq<Pool>)
    requires Select(pools, true) == []
    ensures Select(pools, false) == pools
  {
    if pools != [] { SelectNone(pools[1..]); }
  }

  function Inserted(s: seq<Pool>, i: nat, p: Pool): seq<Pool>
    requires i <= |s|
  {
    s[..i] + [p] + s[i..]
  }

  lemma InsertedAfter(first: Pool, s: seq<Pool>, i: nat, p: Pool)
    requires i <= |s|
    ensures Inserted([first] + s, i + 1, p) == [first] + Inserted(s, i, p)
  {
    assert ([first] + s)[..i + 1] == [first] + s[..i] && ([first] + s)[i + 1..] == s[i..];
  }

  lemma {:induction false} SelectOne(pools: seq<Pool>) returns (i: nat)
    requires |Select(pools, true)| == 1
    ensures i <= |Select(pools, false)| && pools == Inserted(Select(pools, false), i, Select(pools, true)[0])
    ensures Select(pools, true)[0].controlPlane
  {
    assert pools == [pools[0]] + pools[1..];
    if pools[0].controlPlane {
      i := 0;
      SelectNone(pools[1..]);
    } else {
      var j := SelectOne(pools[1..]);
      i := j + 1;
      assert Select(pools, true) == Select(pools[1..], true);
      InsertedAfter(pools[0], Select(pools[1..], false), j, Select(pools, true)[0]);
    }
  }

  /** A partition loses nothing and keeps the order: putting the control plane back at its place
      among the workers gives the pools again. */
  lemma PartitionIsLossless(pools: seq<Pool>) returns (i: nat)
    requires Partition(pools).Success?
    ensures var (control, workers) := Partition(pools).value;
            && i <= |workers| && pools == Inserted(workers, i, control)
            && control.controlPlane && forall w :: w in workers ==> !w.controlPlane
  {
    i := SelectOne(pools);
    SelectIsUniform(pools, false);
  }

  lemma {:induction false} SelectIsUniform(pools: seq<Pool>, controlPlane: bool)
    ensures forall p :: p in Select(pools, controlPlane) ==> p.controlPlane == controlPlane
  {
    if pools != [] { SelectIsUniform(pools[1..], controlPlane); }
  }

  /** Exactly when a partition is accepted, and why it is refused: there must be one control plane, and
      something besides it. */
  lemma {:induction false} PartitionSucceedsExactly(pools: seq<Pool>)
    ensures Partition(pools) == Failure(NotOneControlPlane) <==>
            !exists i :: 0 <= i < |pools| && OnlyControlPlane(pools, i)
    ensures Partition(pools) == Failure(NoWorker) <==> |pools| == 1 && pools[0].controlPlane
  {
    ControlPlanesAre(pools);
    if Partition(pools).Success? || (|Select(pools, true)| == 1 && Select(pools, false) == []) {
      var i := SelectOne(pools);
      SelectIsUniform(pools, false);
    }
    if |pools| == 1 { assert pools[1..] == []; }
  }

  ghost predicate OnlyControlPlane(pools: seq<Pool>, i: int)
    requires 0 <= i < |pools|
  {
    forall j :: 0 <= j < |pools| ==> (pools[j].controlPlane <==> j == i)
  }

  lemma {:induction false} NoControlPlane(pools: seq<Pool>)
    ensures Select(pools, true) == [] <==> forall j :: 0 <= j < |pools| ==> !pools[j].controlPlane
  {
    if pools != [] {
      NoControlPlane(pools[1..]);
      assert forall j :: 0 < j < |pools| ==> pools[j] == pools[1..][j - 1];
    }
  }

  lemma {:induction false} ControlPlanesAre(pools: seq<Pool>)
    ensures |Select(pools, true)| == 1 <==> exists i :: 0 <= i < |pools| && OnlyControlPlane(pools, i)
  {
    if pools != [] {
      var rest := pools[1..];
      assert forall j :: 0 < j < |pools| ==> pools[j] == rest[j - 1];
      if pools[0].controlPlane {
        NoControlPlane(rest);
        assert |Select(pools, true)| == 1 <==> OnlyControlPlane(pools, 0);
      } else {
        ControlPlanesAre(rest);
        forall i | 0 <= i < |rest| ensures OnlyControlPlane(rest, i) <==> OnlyControlPlane(pools, i + 1) {
          if OnlyControlPlane(pools, i + 1) { assert forall j :: 0 <= j < |rest| ==> rest[j] == pools[j + 1]; }
        }
        if i :| 0 <= i < |pools| && OnlyControlPlane(pools, i) { assert OnlyControlPlane(rest, i - 1); }
      }
    }
  }

  function Rendered(instance: string, pools: seq<Pool>): seq<Result<string, NameError>> {
    seq(|pools|, i requires 0 <= i < |pools| => ResourceName(instance, pools[i].name))
  }

  /** The check of the pools' names: they are distinct as given and as rendered, and all render. */
  ghost predicate NamesAccepted(instance: string, pools: seq<Pool>) {
    && Distinct(seq(|pools|, i requires 0 <= i < |pools| => pools[i].name))
    && Distinct(Rendered(instance, pools))
    && forall i :: 0 <= i < |pools| ==> Rendered(instance, pools)[i].Success?
  }

  lemma RenderedApart(instance: string, pools: seq<Pool>, i: nat, j: nat)
    requires Distinct(Rendered(instance, pools)) && i < |pools| && j < |pools| && i != j
    ensures ResourceName(instance, pools[i].name) != ResourceName(instance, pools[j].name)
  {
    hide ResourceName;
    var names := Rendered(instance, pools);
    assert names[if i < j then i else j] != names[if i < j then j else i];
  }

  /** Once accepted and partitioned, the machine names of the workers differ from each other and
      from that of the control plane. */
  lemma PoolNamesAreDistinct(instance: string, pools: seq<Pool>)
    requires NamesAccepted(instance, pools) && Partition(pools).Success?
    ensures var (control, workers) := Partition(pools).value;
            && Distinct(Rendered(instance, workers))
            && forall k :: 0 <= k < |workers| ==>
                 ResourceName(instance, workers[k].name) != ResourceName(instance, control.name)
  {
    hide ResourceName, Partition;
    var i := PartitionIsLossless(pools);
    var (control, workers) := Partition(pools).value;
    forall k | 0 <= k < |workers| ensures pools[if k < i then k else k + 1] == workers[k] { }
    forall j, k | 0 <= j < k < |workers| ensures Rendered(instance, workers)[j] != Rendered(instance, workers)[k] {
      RenderedApart(instance, pools, if j < i then j else j + 1, if k < i then k else k + 1);
    }
    forall k | 0 <= k < |workers|
      ensures ResourceName(instance, workers[k].name) != ResourceName(instance, control.name)
    {
      assert pools[i] == control;
      RenderedApart(instance, pools, i, if k < i then k else k + 1);
    }
  }
}
