/** src/utils/dappsData.js: the catalogue built from the enriched ecosystem
    entries — slugs and unique ids, social-link classification, the seeded
    popularity score, the entry mapping, the hidden sample, the category
    list and the category views. */
module Catalogue {
  import opened Common
  import opened Strings

  // ---------------------------------------------------------------------
  // slugify

  /** The string from the first ASCII lower-case letter or digit on. */
  function SkipOther(s: string): (r: string)
    ensures |r| <= |s|
  {
    if s == [] || IsLowerAlnum(s[0]) then s else SkipOther(s[1..])
  }

  /** `s.replace(/[^a-z0-9]+/g, '-')`: every maximal run of other characters
      becomes one `-`. */
  function DashRuns(s: string): string
    decreases |s|
  {
    if s == [] then []
    else if IsLowerAlnum(s[0]) then [s[0]] + DashRuns(s[1..])
    else ['-'] + DashRuns(SkipOther(s[1..]))
  }

  /** `s.replace(/(^-|-$)/g, '')`: one leading and one trailing `-` go. */
  function StripDashes(t: string): string {
    var t1 := if t != [] && t[0] == '-' then t[1..] else t;
    if t1 != [] && t1[|t1| - 1] == '-' then t1[..|t1| - 1] else t1
  }

  /** `slugify(value)` */
  function Slugify(value: string): string {
    StripDashes(DashRuns(ToLower(value)))
  }

  predicate SlugChar(c: char) { IsLowerAlnum(c) || c == '-' }

  /** No two `-` next to each other. */
  predicate NoDoubleDash(s: string) {
    forall i :: 0 <= i < |s| - 1 && s[i] == '-' ==> s[i + 1] != '-'
  }

  /** What `slugify` promises: `[a-z0-9-]` only, no `-` at either end and
      no `--`. */
  predicate IsSlug(s: string) {
    && (forall i :: 0 <= i < |s| ==> SlugChar(s[i]))
    && (s == [] || (s[0] != '-' && s[|s| - 1] != '-'))
    && NoDoubleDash(s)
  }

  lemma {:induction false} SkipOtherSpec(s: string)
    ensures var r := SkipOther(s);
      (r == [] || IsLowerAlnum(r[0])) && (forall i :: 0 <= i < |s| - |r| ==> !IsLowerAlnum(s[i]))
      && r == s[|s| - |r|..]
    decreases |s|
  {
    if s != [] && !IsLowerAlnum(s[0]) {
      SkipOtherSpec(s[1..]);
    }
  }

  /** Dash runs leave only slug characters, never two dashes in a row, and
      keep a letter or digit in front. */
  lemma {:induction false} DashRunsSpec(s: string)
    ensures var r := DashRuns(s);
      && (forall i :: 0 <= i < |r| ==> SlugChar(r[i]))
      && NoDoubleDash(r)
      && (s != [] && IsLowerAlnum(s[0]) ==> r != [] && r[0] == s[0])
      && (s != [] ==> r != [])
    decreases |s|
  {
    if s != [] {
      var r := DashRuns(s);
      if IsLowerAlnum(s[0]) {
        DashRunsSpec(s[1..]);
        var t := DashRuns(s[1..]);
        assert r == [s[0]] + t;
        assert forall i :: 1 <= i < |r| ==> r[i] == t[i - 1];
      } else {
        var u := SkipOther(s[1..]);
        SkipOtherSpec(s[1..]);
        DashRunsSpec(u);
        var t := DashRuns(u);
        assert r == ['-'] + t;
        assert forall i :: 1 <= i < |r| ==> r[i] == t[i - 1];
      }
    }
  }

  /** Every slug satisfies `IsSlug`. */
  lemma SlugifySpec(value: string)
    ensures IsSlug(Slugify(value))
  {
    var d := DashRuns(ToLower(value));
    DashRunsSpec(ToLower(value));
    var t1 := if d != [] && d[0] == '-' then d[1..] else d;
    assert forall i :: 0 <= i < |t1| ==> SlugChar(t1[i]) && (i < |t1| - 1 && t1[i] == '-' ==> t1[i + 1] != '-') by {
      if d != [] && d[0] == '-' {
        assert forall i :: 0 <= i < |t1| ==> t1[i] == d[i + 1];
      }
    }
  }

  /** `DashRuns` leaves a string of slug characters without `--` as it is. */
  lemma {:induction false} DashRunsFixed(s: string)
    requires forall i :: 0 <= i < |s| ==> SlugChar(s[i])
    requires NoDoubleDash(s)
    ensures DashRuns(s) == s
    decreases |s|
  {
    if s != [] {
      assert forall i :: 0 <= i < |s[1..]| ==> s[1..][i] == s[i + 1];
      if IsLowerAlnum(s[0]) {
        DashRunsFixed(s[1..]);
      } else {
        assert s[1..] == [] || IsLowerAlnum(s[1]);
        assert SkipOther(s[1..]) == s[1..];
        DashRunsFixed(s[1..]);
      }
    }
  }

  /** A slug is its own slug, so `slugify` is idempotent. */
  lemma SlugifyIdempotent(value: string)
    ensures Slugify(Slugify(value)) == Slugify(value)
  {
    var s := Slugify(value);
    SlugifySpec(value);
    assert ToLower(s) == s;
    DashRunsFixed(s);
  }

  // The content of a dash rendering: the runs of `[a-z0-9]` characters of
  // the input, each kept whole and in order, with one `-` for each maximal
  // run of other characters between, before or after them.

  /** A string of `[a-z0-9]` characters only. */
  predicate AllAlnum(w: string) {
    forall i :: 0 <= i < |w| ==> IsLowerAlnum(w[i])
  }

  /** The length of the run of `[a-z0-9]` characters `s` starts with. */
  function AlnumLength(s: string): (n: nat)
    ensures n <= |s| && AllAlnum(s[..n]) && (n < |s| ==> !IsLowerAlnum(s[n]))
  {
    if s == [] || !IsLowerAlnum(s[0]) then 0 else 1 + AlnumLength(s[1..])
  }

  /** The maximal runs of `[a-z0-9]` characters of `s`, in order. */
  function AlnumRuns(s: string): (r: seq<string>)
    ensures forall k :: 0 <= k < |r| ==> r[k] != [] && AllAlnum(r[k])
    decreases |s|
  {
    if s == [] then []
    else if !IsLowerAlnum(s[0]) then AlnumRuns(s[1..])
    else
      var n := AlnumLength(s);
      [s[..n]] + AlnumRuns(s[n..])
  }

  /** The `[a-z0-9]` characters of `s`, in order. */
  function AlnumChars(s: string): string {
    if s == [] then [] else (if IsLowerAlnum(s[0]) then [s[0]] else []) + AlnumChars(s[1..])
  }

  lemma {:induction false} AlnumCharsAppend(a: string, b: string)
    ensures AlnumChars(a + b) == AlnumChars(a) + AlnumChars(b)
    decreases |a|
  {
    if a == [] {
      assert a + b == b;
    } else {
      var ab := a + b;
      assert ab[0] == a[0] && ab[1..] == a[1..] + b;
      var head := if IsLowerAlnum(a[0]) then [a[0]] else [];
      assert AlnumChars(ab) == head + AlnumChars(a[1..] + b);
      AlnumCharsAppend(a[1..], b);
      assert AlnumChars(a) == head + AlnumChars(a[1..]);
    }
  }

  lemma {:induction false} AlnumCharsOfRun(w: string)
    requires AllAlnum(w)
    ensures AlnumChars(w) == w
    decreases |w|
  {
    if w != [] {
      AlnumCharsOfRun(w[1..]);
    }
  }

  /** The runs hold exactly the `[a-z0-9]` characters of `s`, in order. */
  lemma {:induction false} AlnumRunsKeepCharacters(s: string)
    ensures Concat(AlnumRuns(s)) == AlnumChars(s)
    decreases |s|
  {
    if s != [] {
      if !IsLowerAlnum(s[0]) {
        AlnumRunsKeepCharacters(s[1..]);
      } else {
        var n := AlnumLength(s);
        assert s == s[..n] + s[n..];
        AlnumCharsAppend(s[..n], s[n..]);
        AlnumCharsOfRun(s[..n]);
        AlnumRunsKeepCharacters(s[n..]);
        var ws := AlnumRuns(s);
        assert ws[1..] == AlnumRuns(s[n..]);
      }
    }
  }

  /** Skipped characters start no run. */
  lemma {:induction false} AlnumRunsSkip(s: string)
    ensures AlnumRuns(SkipOther(s)) == AlnumRuns(s)
    decreases |s|
  {
    if s != [] && !IsLowerAlnum(s[0]) {
      AlnumRunsSkip(s[1..]);
    }
  }

  /** Dashing passes a leading run of `[a-z0-9]` characters through. */
  lemma {:induction false} DashWord(t: string, n: nat)
    requires n <= |t| && AllAlnum(t[..n])
    ensures DashRuns(t) == t[..n] + DashRuns(t[n..])
    decreases n
  {
    if n > 0 {
      assert t[0] == t[..n][0];
      DashWord(t[1..], n - 1);
      assert t[1..][..n - 1] == t[1..n];
      assert t[1..][n - 1..] == t[n..];
      assert t[..n] == [t[0]] + t[1..n];
    }
  }

  /** `s` ends in a character other than `[a-z0-9]`. */
  predicate EndsInOther(s: string) {
    s != [] && !IsLowerAlnum(s[|s| - 1])
  }

  /** A run of other characters becomes one `-` and separates no runs. */
  lemma OtherRun(rest: string)
    requires rest != [] && !IsLowerAlnum(rest[0])
    ensures DashRuns(rest) == "-" + DashRuns(SkipOther(rest))
    ensures AlnumRuns(rest) == AlnumRuns(SkipOther(rest))
    ensures var u := SkipOther(rest); |u| < |rest| && (u == [] || IsLowerAlnum(u[0]))
    ensures var u := SkipOther(rest); EndsInOther(rest) <==> (u == [] || EndsInOther(u))
  {
    SkipOtherSpec(rest);
    var u := SkipOther(rest);
    assert u == SkipOther(rest[1..]);
    AlnumRunsSkip(rest);
    if u != [] {
      assert u[|u| - 1] == rest[|rest| - 1];
    }
  }

  /** Splitting off the first run of `t`. */
  lemma FirstRun(t: string)
    requires t != [] && IsLowerAlnum(t[0])
    ensures var n := AlnumLength(t);
      && 0 < n && AlnumRuns(t) == [t[..n]] + AlnumRuns(t[n..])
      && DashRuns(t) == t[..n] + DashRuns(t[n..])
      && (t[n..] == [] || !IsLowerAlnum(t[n..][0]))
      && (EndsInOther(t) <==> EndsInOther(t[n..]))
  {
    var n := AlnumLength(t);
    DashWord(t, n);
    if t[n..] != [] {
      assert t[n..][|t[n..]| - 1] == t[|t| - 1];
    }
  }

  /** From a `[a-z0-9]` character on, dashing gives the runs joined by
      single dashes, plus one dash when the string ends in other characters. */
  lemma {:induction false} DashFromRun(t: string)
    requires t == [] || IsLowerAlnum(t[0])
    ensures DashRuns(t) == Join(AlnumRuns(t), "-") + (if EndsInOther(t) then "-" else "")
    decreases |t|
  {
    if t != [] {
      var n := AlnumLength(t);
      var w, rest := t[..n], t[n..];
      assert AlnumRuns(t) == [w] + AlnumRuns(rest) && DashRuns(t) == w + DashRuns(rest)
        && (EndsInOther(t) <==> EndsInOther(rest)) && (rest == [] || !IsLowerAlnum(rest[0])) by {
        FirstRun(t);
      }
      if rest == [] {
        assert AlnumRuns(t) == [w] && DashRuns(t) == w + [];
      } else {
        var u := SkipOther(rest);
        assert DashRuns(rest) == "-" + DashRuns(u) && AlnumRuns(rest) == AlnumRuns(u)
          && |u| < |rest| && (u == [] || IsLowerAlnum(u[0])) && (EndsInOther(rest) <==> u == [] || EndsInOther(u)) by {
          OtherRun(rest);
        }
        if u == [] {
          assert AlnumRuns(t) == [w] && DashRuns(t) == w + ("-" + []);
        } else {
          DashFromRun(u);
          JoinCons(w, AlnumRuns(u), "-");
          DashReassociate(w, Join(AlnumRuns(u), "-"), if EndsInOther(t) then "-" else "");
        }
      }
    }
  }

  lemma DashReassociate(w: string, j: string, tr: string)
    ensures w + ("-" + (j + tr)) == (w + "-" + j) + tr
  {
  }

  /** `s.replace(/[^a-z0-9]+/g, '-')` is the runs of `[a-z0-9]` characters of
      `s` joined by single dashes, with one dash in front when `s` starts
      with another character and one behind when it has a run and ends with
      another character. */
  lemma DashRunsJoin(s: string)
    ensures DashRuns(s) ==
      (if s != [] && !IsLowerAlnum(s[0]) then "-" else "")
      + Join(AlnumRuns(s), "-")
      + (if AlnumRuns(s) != [] && EndsInOther(s) then "-" else "")
  {
    if s != [] && !IsLowerAlnum(s[0]) {
      DashLeadingOther(s);
    } else {
      DashFromRun(s);
      if s != [] {
        FirstRun(s);
      }
    }
  }

  /** `DashRunsJoin` for a string that starts with another character. */
  lemma DashLeadingOther(s: string)
    requires s != [] && !IsLowerAlnum(s[0])
    ensures DashRuns(s) == "-" + Join(AlnumRuns(s), "-") + (if AlnumRuns(s) != [] && EndsInOther(s) then "-" else "")
  {
    var u := SkipOther(s);
    assert DashRuns(s) == "-" + DashRuns(u) && AlnumRuns(s) == AlnumRuns(u)
      && (u == [] || IsLowerAlnum(u[0])) && (EndsInOther(s) <==> u == [] || EndsInOther(u)) by {
      OtherRun(s);
    }
    if u == [] {
      assert AlnumRuns(u) == [] && DashRuns(u) == [];
    } else {
      assert AlnumRuns(u) != [] by {
        FirstRun(u);
      }
      DashFromRun(u);
    }
  }

  /** Runs joined by dashes start and end with a `[a-z0-9]` character. */
  lemma {:induction false} JoinRunsEdges(ws: seq<string>)
    requires forall k :: 0 <= k < |ws| ==> ws[k] != [] && AllAlnum(ws[k])
    ensures var j := Join(ws, "-"); j == [] <==> ws == []
    ensures var j := Join(ws, "-"); j != [] ==> IsLowerAlnum(j[0]) && IsLowerAlnum(j[|j| - 1])
    decreases |ws|
  {
    if |ws| > 1 {
      JoinRunsEdges(ws[1..]);
      JoinCons(ws[0], ws[1..], "-");
      assert [ws[0]] + ws[1..] == ws;
    }
  }

  /** `slugify(value)` is the runs of `[a-z0-9]` characters of the lower-cased
      value joined by single dashes: every such character survives in order
      (`AlnumRunsKeepCharacters`), with one dash exactly where other
      characters separated two of them. */
  lemma SlugifyRuns(value: string)
    ensures Slugify(value) == Join(AlnumRuns(ToLower(value)), "-")
  {
    var l := ToLower(value);
    DashRunsJoin(l);
    var j := Join(AlnumRuns(l), "-");
    JoinRunsEdges(AlnumRuns(l));
    var p := if l != [] && !IsLowerAlnum(l[0]) then "-" else "";
    var q := if AlnumRuns(l) != [] && EndsInOther(l) then "-" else "";
    StripPadded(p, j, q);
  }

  /** Stripping one dash at each end undoes a padding of at most one dash
      on each side of a string that does not start or end with one. */
  lemma StripPadded(p: string, j: string, q: string)
    requires p == "" || p == "-"
    requires q == "" || q == "-"
    requires j == [] ==> q == ""
    requires j != [] ==> j[0] != '-' && j[|j| - 1] != '-'
    ensures StripDashes(p + j + q) == j
  {
    var t := p + j + q;
    var t1 := if t != [] && t[0] == '-' then t[1..] else t;
    if p == "-" {
      assert t1 == j + q;
    } else {
      assert t == j + q;
      assert t1 == j + q;
    }
    if q == "-" {
      assert t1[..|t1| - 1] == j;
    }
  }

  // ---------------------------------------------------------------------
  // uniqueSlug

  /** `count ? `${slug}-${count}` : slug` */
  function Suffixed(slug: string, count: nat): string {
    if count == 0 then slug else slug + "-" + NatToString(count)
  }

  /** Different counts give different ids for one slug. */
  lemma SuffixedInjective(slug: string, a: nat, b: nat)
    requires Suffixed(slug, a) == Suffixed(slug, b)
    ensures a == b
  {
    if a != 0 && b != 0 {
      var p := slug + "-";
      assert Suffixed(slug, a)[|p|..] == NatToString(a);
      assert Suffixed(slug, b)[|p|..] == NatToString(b);
      NatToStringInjective(a, b);
    }
  }

  /** `slugCounts.get(slug) || 0` */
  function CountOf(counts: map<string, nat>, slug: string): nat {
    if slug in counts then counts[slug] else 0
  }

  /** One call of `uniqueSlug` on the counter map: the id and the new map. */
  function SlugStep(counts: map<string, nat>, slug: string): (string, map<string, nat>) {
    (Suffixed(slug, CountOf(counts, slug)), counts[slug := CountOf(counts, slug) + 1])
  }

  /** The ids of successive `uniqueSlug` calls. */
  function SlugIds(counts: map<string, nat>, slugs: seq<string>): (ids: seq<string>)
    ensures |ids| == |slugs|
    decreases |slugs|
  {
    if slugs == [] then []
    else
      var r := SlugStep(counts, slugs[0]);
      [r.0] + SlugIds(r.1, slugs[1..])
  }

  /** The counter map after successive `uniqueSlug` calls. */
  function SlugCounts(counts: map<string, nat>, slugs: seq<string>): map<string, nat>
    decreases |slugs|
  {
    if slugs == [] then counts else SlugCounts(SlugStep(counts, slugs[0]).1, slugs[1..])
  }

  /** Calls on `a + b` are the calls on `a`, then those on `b` from the map
      they leave. */
  lemma {:induction false} SlugIdsAppend(counts: map<string, nat>, a: seq<string>, b: seq<string>)
    ensures SlugIds(counts, a + b) == SlugIds(counts, a) + SlugIds(SlugCounts(counts, a), b)
    ensures SlugCounts(counts, a + b) == SlugCounts(SlugCounts(counts, a), b)
    decreases |a|
  {
    if a == [] {
      assert a + b == b;
    } else {
      assert (a + b)[1..] == a[1..] + b;
      SlugIdsAppend(SlugStep(counts, a[0]).1, a[1..], b);
    }
  }

  /** Repeats of one slug get the slug, then `slug-1`, `slug-2`, … counted
      on from its current count. */
  lemma {:induction false} RepeatedSlug(counts: map<string, nat>, slug: string, n: nat)
    ensures var ids := SlugIds(counts, seq(n, _ => slug));
      |ids| == n && forall k :: 0 <= k < n ==> ids[k] == Suffixed(slug, CountOf(counts, slug) + k)
    decreases n
  {
    if n > 0 {
      var r := SlugStep(counts, slug);
      assert seq(n, _ => slug)[1..] == seq(n - 1, _ => slug);
      RepeatedSlug(r.1, slug, n - 1);
    }
  }

  /** The module-level `slugCounts` map with `uniqueSlug`, as written. */
  class SlugCounter {
    var counts: map<string, nat>

    constructor ()
      ensures counts == map[]
    {
      counts := map[];
    }

    /** `uniqueSlug(slug)` */
    method UniqueSlug(slug: string) returns (id: string)
      modifies this
      ensures (id, counts) == SlugStep(old(counts), slug)
    {
      var count := if slug in counts then counts[slug] else 0;
      counts := counts[slug := count + 1];
      id := if count != 0 then slug + "-" + NatToString(count) else slug;
    }
  }

  /** As written, the ids are not unique: the slugs `a`, `a`, `a-1` (names
      such as "A", "a!" and "A 1") are given the ids `a`, `a-1` and `a-1`. */
  lemma SlugIdsCollide()
    ensures SlugIds(map[], ["a", "a", "a-1"]) == ["a", "a-1", "a-1"]
  {
    assert NatToString(1) == "1";
    assert Suffixed("a", 1) == "a-1";
    var c1 := map["a" := 1];
    var c2 := map["a" := 2];
    assert SlugStep(map[], "a") == ("a", c1);
    assert CountOf(c1, "a") == 1;
    assert c1["a" := 2] == c2;
    assert SlugStep(c1, "a") == ("a-1", c2);
    assert SlugStep(c2, "a-1") == ("a-1", c2["a-1" := 1]);
  }

  /** The candidate ids for one slug tried from `lo` up to `hi - 1`. */
  function Tried(slug: string, lo: nat, hi: nat): set<string>
    decreases hi
  {
    if hi <= lo then {} else Tried(slug, lo, hi - 1) + {Suffixed(slug, hi - 1)}
  }

  lemma {:induction false} NotTriedYet(slug: string, lo: nat, hi: nat, k: nat)
    requires hi <= k
    ensures Suffixed(slug, k) !in Tried(slug, lo, hi)
    decreases hi
  {
    if lo < hi {
      NotTriedYet(slug, lo, hi - 1, k);
      if Suffixed(slug, k) == Suffixed(slug, hi - 1) {
        SuffixedInjective(slug, k, hi - 1);
      }
    }
  }

  /** `uniqueSlug` with the ids it has handed out remembered, so that a
      candidate already taken (by another slug's suffix) is skipped. */
  class SlugRegistry {
    var counts: map<string, nat>
    var issued: set<string>

    constructor ()
      ensures counts == map[] && issued == {}
    {
      counts, issued := map[], {};
    }

    /** The first free id among `slug`'s candidates from its count on. The
        same id as `SlugStep` whenever that one is still free. */
    method UniqueSlug(slug: string) returns (id: string)
      modifies this
      ensures id !in old(issued) && issued == old(issued) + {id}
      ensures exists k: nat ::
        (k >= CountOf(old(counts), slug) && id == Suffixed(slug, k) && counts == old(counts)[slug := k + 1])
      ensures SlugStep(old(counts), slug).0 !in old(issued) ==>
        (id, counts) == SlugStep(old(counts), slug)
    {
      var start := if slug in counts then counts[slug] else 0;
      var count := FirstFree(slug, start, issued);
      id := Suffixed(slug, count);
      counts := counts[slug := count + 1];
      issued := issued + {id};
    }
  }

  /** The search the registry adds: the first count from `start` whose
      candidate id is not taken. */
  method FirstFree(slug: string, start: nat, taken: set<string>) returns (count: nat)
    ensures count >= start && Suffixed(slug, count) !in taken
    ensures Suffixed(slug, start) !in taken ==> count == start
  {
    count := start;
    while Suffixed(slug, count) in taken
      invariant count >= start
      invariant Tried(slug, start, count) <= taken
      invariant count > start ==> Suffixed(slug, start) in taken
      decreases |taken - Tried(slug, start, count)|
    {
      NotTriedYet(slug, start, count, count);
      assert taken - Tried(slug, start, count + 1) < taken - Tried(slug, start, count);
      count := count + 1;
    }
  }

  // ---------------------------------------------------------------------
  // isSocialLink

  /** The alternatives of the social-link pattern, lower-cased. */
  const SocialPatterns: seq<string> := ["x.com", "twitter.com", "warpcast.com", "farcaster",
    "discord.com", "t.me", "telegram.me", "linkedin.com", "medium.com"]

  /** `isSocialLink(link)`: one of the patterns occurs, in any ASCII letter case. */
  predicate IsSocialLink(link: string) {
    exists k :: 0 <= k < |SocialPatterns| && Contains(ToLower(link), SocialPatterns[k])
  }

  /** Letter case does not matter. */
  lemma SocialIgnoresCase(link: string)
    ensures IsSocialLink(ToUpper(link)) == IsSocialLink(link)
  {
    LowerOfUpper(link);
  }

  /** The empty link (the parameter's default) is not social. */
  lemma EmptyNotSocial()
    ensures !IsSocialLink("")
  {
    forall k | 0 <= k < |SocialPatterns|
      ensures !Contains("", SocialPatterns[k])
    {
      assert !OccursAt("", SocialPatterns[k], 0);
    }
  }

  // ---------------------------------------------------------------------
  // seededRandom and derivePopularityScore

  const TwoTo32: nat := 0x1_0000_0000

  /** One turn of the `seededRandom` loop over a UTF-16 code unit, `>>> 0`
      taken modulo 2^32. */
  function SeedStep(seed: nat, unit: nat): (r: nat)
    ensures r < TwoTo32
  {
    (seed * 1664525 + unit + 1013904223) % TwoTo32
  }

  /** Every intermediate value of a step stays below 2^53, so the source's
      double arithmetic computes it exactly. */
  lemma SeedStepExact(seed: nat, unit: nat)
    requires seed < TwoTo32 && unit < 0x1_0000
    ensures seed * 1664525 + unit + 1013904223 < 0x20_0000_0000_0000
  {
  }

  /** The seed after a sequence of code units. */
  function SeedOfUnits(units: seq<nat>): (r: nat)
    ensures r < TwoTo32
  {
    if units == [] then 0 else SeedStep(SeedOfUnits(units[..|units| - 1]), units[|units| - 1])
  }

  /** The seed after the characters of `s`, read as `charCodeAt` reads them. */
  function SeedOf(s: string): (r: nat)
    ensures r < TwoTo32
  {
    SeedOfUnits(CodeUnits(s))
  }

  /** `seededRandom(seedString)` */
  method SeededRandom(seedString: string) returns (r: real)
    ensures r == SeedOf(seedString) as real / TwoTo32 as real
    ensures 0.0 <= r < 1.0
  {
    var units := CodeUnits(seedString);
    var seed := 0;
    var i := 0;
    while i < |units|
      invariant 0 <= i <= |units|
      invariant seed == SeedOfUnits(units[..i])
    {
      assert units[..i + 1][..i] == units[..i];
      seed := (seed * 1664525 + units[i] + 1013904223) % TwoTo32;
      i := i + 1;
    }
    assert units[..i] == units;
    r := seed as real / TwoTo32 as real;
  }

  /** `Math.round(seededRandom(s) * 700)`, computed exactly on the seed. */
  function RandomBase(s: string): nat {
    (SeedOf(s) * 700 + TwoTo32 / 2) / TwoTo32
  }

  /** The base is the rounded value of `seededRandom(s) * 700`, so it lies in
      [0, 700]. */
  lemma RandomBaseSpec(s: string)
    ensures RandomBase(s) <= 700
    ensures var x := SeedOf(s) as real * 700.0 / TwoTo32 as real;
      RandomBase(s) as real <= x + 0.5 < RandomBase(s) as real + 1.0
  {
    var n := SeedOf(s) * 700 + TwoTo32 / 2;
    var b := RandomBase(s);
    assert b * TwoTo32 <= n < (b + 1) * TwoTo32;
    assert (b * TwoTo32) as real <= n as real < ((b + 1) * TwoTo32) as real;
  }

  /** `parseInt(String(value).replace(/[^0-9]/g, ''), 10)` when it is a
      positive number. */
  function Hint(value: string): Option<nat> {
    var digits := DigitsOf(value);
    if digits == [] then None
    else
      var n := DigitsValue(digits);
      if n > 0 then Some(n) else None
  }

  /** `numericHints.length ? Math.max(...numericHints) : 0` */
  function MaxHint(metadata: seq<string>): nat
    decreases |metadata|
  {
    if metadata == [] then 0
    else
      var rest := MaxHint(metadata[1..]);
      match Hint(metadata[0])
      case None => rest
      case Some(n) => if n > rest then n else rest
  }

  /** The maximum bounds every hint and is one of them, or 0 when there is
      none. */
  lemma {:induction false} MaxHintSpec(metadata: seq<string>)
    ensures forall i :: 0 <= i < |metadata| && Hint(metadata[i]).Some? ==> Hint(metadata[i]).value <= MaxHint(metadata)
    ensures MaxHint(metadata) == 0 || exists i :: 0 <= i < |metadata| && Hint(metadata[i]) == Some(MaxHint(metadata))
    ensures (forall i :: 0 <= i < |metadata| ==> Hint(metadata[i]).None?) ==> MaxHint(metadata) == 0
    decreases |metadata|
  {
    if metadata != [] {
      MaxHintSpec(metadata[1..]);
      assert forall i :: 1 <= i < |metadata| ==> metadata[i] == metadata[1..][i - 1];
      if MaxHint(metadata) != 0 && MaxHint(metadata) == MaxHint(metadata[1..]) {
        var i :| 0 <= i < |metadata[1..]| && Hint(metadata[1..][i]) == Some(MaxHint(metadata[1..]));
        assert Hint(metadata[i + 1]) == Some(MaxHint(metadata));
      }
    }
  }

  /** The fields of an enriched ecosystem entry the catalogue reads; `""`
      stands for an absent or falsy string, `csvTags` is `None` when
      `csvMeta.tags` is not an array. */
  datatype EcoItem = EcoItem(
    name: string,
    description: string,
    projectType: string,
    categories: seq<string>,
    metadata: seq<string>,
    status: string,
    onlyOnMonad: bool,
    links: seq<string>,
    web: string,
    x: string,
    csvTags: Option<seq<string>>,
    warning: string,
    banner: string,
    logo: string)

  /** `entry.name || entry.description || 'monad'` */
  function SeedString(e: EcoItem): string {
    if e.name != "" then e.name else if e.description != "" then e.description else "monad"
  }

  /** `derivePopularityScore(entry)` */
  function PopularityScore(e: EcoItem): nat {
    MaxHint(e.metadata) + RandomBase(SeedString(e)) + |e.links| * 18 + (if e.onlyOnMonad then 60 else 0)
  }

  /** The score is at least every hint plus the link and exclusivity
      boosts, and at most 700 more than the largest hint plus those boosts. */
  lemma PopularityScoreSpec(e: EcoItem)
    ensures var boosts := |e.links| * 18 + (if e.onlyOnMonad then 60 else 0);
      && MaxHint(e.metadata) + boosts <= PopularityScore(e) <= MaxHint(e.metadata) + boosts + 700
      && forall i :: 0 <= i < |e.metadata| && Hint(e.metadata[i]).Some? ==>
           Hint(e.metadata[i]).value + boosts <= PopularityScore(e)
  {
    RandomBaseSpec(SeedString(e));
    MaxHintSpec(e.metadata);
  }

  // ---------------------------------------------------------------------
  // mapEcosystemEntry

  /** One catalogue entry (`contractAddress` is always `null` and left out). */
  datatype DappItem = DappItem(
    id: string,
    name: string,
    description: string,
    projectType: string,
    categories: seq<string>,
    metadata: seq<string>,
    status: string,
    onlyOnMonad: bool,
    url: string,
    links: seq<string>,
    socials: seq<string>,
    bannerImage: string,
    logoImage: string,
    votes: nat,
    popularityScore: nat,
    hidden: bool,
    warning: string,
    tags: seq<string>)

  /** `links.find((link) => !isSocialLink(link))` */
  function FirstNonSocial(links: seq<string>): Option<string> {
    if links == [] then None
    else if !IsSocialLink(links[0]) then Some(links[0])
    else FirstNonSocial(links[1..])
  }

  /** `links.filter(isSocialLink)` */
  function SocialLinks(links: seq<string>): seq<string> {
    if links == [] then []
    else (if IsSocialLink(links[0]) then [links[0]] else []) + SocialLinks(links[1..])
  }

  /** A string `Boolean` takes to be true. */
  predicate Present(s: string) {
    s != ""
  }

  /** `arr.filter(Boolean)` over strings. */
  function NonEmpty(arr: seq<string>): seq<string> {
    if arr == [] then []
    else (if Present(arr[0]) then [arr[0]] else []) + NonEmpty(arr[1..])
  }

  /** The `website` of `mapEcosystemEntry`. */
  function Website(e: EcoItem): string {
    if e.web != "" then e.web
    else
      match FirstNonSocial(e.links)
      case Some(l) =>
        if l != "" then l else if e.links != [] && e.links[0] != "" then e.links[0] else ""
      case None => if e.links != [] && e.links[0] != "" then e.links[0] else ""
  }

  /** The `socials` of `mapEcosystemEntry`. */
  function Socials(e: EcoItem): seq<string> {
    NonEmpty(SocialLinks(e.links) + (if e.x != "" && !IsSocialLink(e.x) then [e.x] else []))
  }

  /** `mapEcosystemEntry(entry)` once its id is chosen. */
  function MapEcosystemEntry(e: EcoItem, id: string): DappItem {
    var score := PopularityScore(e);
    DappItem(
      id, e.name, e.description, e.projectType, e.categories, e.metadata, e.status, e.onlyOnMonad,
      Website(e), e.links, Socials(e), e.banner, e.logo, score, score, false, e.warning,
      match e.csvTags case Some(t) => NonEmpty(t) case None => [])
  }

  lemma {:induction false} FirstNonSocialSpec(links: seq<string>)
    ensures match FirstNonSocial(links)
      case None => forall i :: 0 <= i < |links| ==> IsSocialLink(links[i])
      case Some(l) => exists i :: 0 <= i < |links| && links[i] == l && !IsSocialLink(l)
                        && forall j :: 0 <= j < i ==> IsSocialLink(links[j])
  {
    if links != [] && IsSocialLink(links[0]) {
      FirstNonSocialSpec(links[1..]);
      assert forall i :: 1 <= i < |links| ==> links[i] == links[1..][i - 1];
      match FirstNonSocial(links[1..])
      case None =>
      case Some(l) =>
        var i :| 0 <= i < |links[1..]| && links[1..][i] == l && !IsSocialLink(l)
          && forall j :: 0 <= j < i ==> IsSocialLink(links[1..][j]);
        assert links[i + 1] == l;
    } else if links != [] {
      assert links[0] == FirstNonSocial(links).value;
    }
  }

  lemma {:induction false} SocialLinksSpec(links: seq<string>)
    ensures forall s :: s in SocialLinks(links) <==> s in links && IsSocialLink(s)
  {
    if links != [] {
      SocialLinksSpec(links[1..]);
      assert links == [links[0]] + links[1..];
    }
  }

  lemma {:induction false} NonEmptySpec(arr: seq<string>)
    ensures forall s :: s in NonEmpty(arr) <==> s in arr && s != ""
    ensures (forall i :: 0 <= i < |arr| ==> arr[i] != "") ==> NonEmpty(arr) == arr
  {
    if arr != [] {
      NonEmptySpec(arr[1..]);
      assert arr == [arr[0]] + arr[1..];
    }
  }

  /** `links.filter(isSocialLink)` keeps the social links in their order. */
  lemma {:induction false} SocialLinksIndices(links: seq<string>) returns (idx: seq<nat>)
    ensures var r := SocialLinks(links);
      && |idx| == |r|
      && (forall k :: 0 <= k < |idx| ==> idx[k] < |links| && links[idx[k]] == r[k])
      && (forall k, l :: 0 <= k < l < |idx| ==> idx[k] < idx[l])
      && (forall j :: 0 <= j < |links| ==> (j in idx <==> IsSocialLink(links[j])))
    decreases |links|
  {
    if links == [] {
      idx := [];
    } else {
      var rest := SocialLinksIndices(links[1..]);
      var r' := SocialLinks(links[1..]);
      assert Picks(links[1..], IsSocialLink, r', rest);
      assert SocialLinks(links) == if IsSocialLink(links[0]) then [links[0]] + r' else r';
      idx := PicksCons(links, IsSocialLink, r', rest);
    }
  }

  /** `arr.filter(Boolean)` keeps the non-empty strings in their order. */
  lemma {:induction false} NonEmptyIndices(arr: seq<string>) returns (idx: seq<nat>)
    ensures var r := NonEmpty(arr);
      && |idx| == |r|
      && (forall k :: 0 <= k < |idx| ==> idx[k] < |arr| && arr[idx[k]] == r[k])
      && (forall k, l :: 0 <= k < l < |idx| ==> idx[k] < idx[l])
      && (forall j :: 0 <= j < |arr| ==> (j in idx <==> Present(arr[j])))
    decreases |arr|
  {
    if arr == [] {
      idx := [];
    } else {
      var rest := NonEmptyIndices(arr[1..]);
      var r' := NonEmpty(arr[1..]);
      assert Picks(arr[1..], Present, r', rest);
      assert NonEmpty(arr) == if Present(arr[0]) then [arr[0]] + r' else r';
      idx := PicksCons(arr, Present, r', rest);
    }
  }

  /** Filtering a concatenation filters each part. */
  lemma {:induction false} NonEmptyAppend(a: seq<string>, b: seq<string>)
    ensures NonEmpty(a + b) == NonEmpty(a) + NonEmpty(b)
  {
    if a == [] {
      assert a + b == b;
    } else {
      var ab := a + b;
      assert ab[0] == a[0] && ab[1..] == a[1..] + b;
      var head := if a[0] != "" then [a[0]] else [];
      assert NonEmpty(ab) == head + NonEmpty(a[1..] + b);
      NonEmptyAppend(a[1..], b);
      assert NonEmpty(a) == head + NonEmpty(a[1..]);
    }
  }

  /** The url is `csvMeta.web`, else the first non-social link when it is
      not empty, else the first link, else `''`. */
  lemma WebsiteSpec(e: EcoItem)
    ensures e.web != "" ==> Website(e) == e.web
    ensures e.web == "" && (forall i :: 0 <= i < |e.links| ==> IsSocialLink(e.links[i])) ==>
      Website(e) == if e.links == [] then "" else e.links[0]
    ensures e.web == "" ==> forall i :: (0 <= i < |e.links| && !IsSocialLink(e.links[i])
      && forall j :: 0 <= j < i ==> IsSocialLink(e.links[j])) ==>
      Website(e) == if e.links[i] != "" then e.links[i] else e.links[0]
  {
    FirstNonSocialSpec(e.links);
    if e.web == "" && e.links != [] {
      match FirstNonSocial(e.links)
      case None =>
      case Some(l) =>
        var i0 :| 0 <= i0 < |e.links| && e.links[i0] == l && !IsSocialLink(l)
          && forall j :: 0 <= j < i0 ==> IsSocialLink(e.links[j]);
        assert forall i :: (0 <= i < |e.links| && !IsSocialLink(e.links[i])
          && forall j :: 0 <= j < i ==> IsSocialLink(e.links[j])) ==> i == i0;
    }
  }

  /** The socials are the social links of `links`, in their order, then
      `csvMeta.x` only when it is not a social link itself: `filter(Boolean)`
      drops nothing, as no social link is empty. */
  lemma SocialsSpec(e: EcoItem)
    ensures forall s :: s in Socials(e) <==>
      (s in e.links && IsSocialLink(s)) || (s == e.x && s != "" && !IsSocialLink(s))
    ensures Socials(e) == SocialLinks(e.links) + (if e.x != "" && !IsSocialLink(e.x) then [e.x] else [])
    ensures forall i :: (0 <= i < |e.links| && IsSocialLink(e.links[i])
      && forall j :: 0 <= j < i ==> !IsSocialLink(e.links[j])) ==> Socials(e)[0] == e.links[i]
    ensures (forall i :: 0 <= i < |e.links| ==> !IsSocialLink(e.links[i])) ==>
      Socials(e) == if e.x != "" && !IsSocialLink(e.x) then [e.x] else []
  {
    EmptyNotSocial();
    SocialLinksSpec(e.links);
    NonEmptySpec(SocialLinks(e.links) + (if e.x != "" && !IsSocialLink(e.x) then [e.x] else []));
    SocialsKeepAll(e);
    FirstSocial(e.links);
  }

  /** `filter(Boolean)` drops none of the socials. */
  lemma SocialsKeepAll(e: EcoItem)
    ensures Socials(e) == SocialLinks(e.links) + (if e.x != "" && !IsSocialLink(e.x) then [e.x] else [])
  {
    var extra := if e.x != "" && !IsSocialLink(e.x) then [e.x] else [];
    var social := SocialLinks(e.links);
    assert NonEmpty(social) == social by {
      EmptyNotSocial();
      SocialLinksSpec(e.links);
      assert forall k :: 0 <= k < |social| ==> social[k] in social;
      NonEmptySpec(social);
    }
    assert NonEmpty(extra) == extra by {
      NonEmptySpec(extra);
    }
    NonEmptyAppend(social, extra);
  }

  /** The first social link of `links` comes first, and there is none when
      no link is social. */
  lemma FirstSocial(links: seq<string>)
    ensures forall i :: (0 <= i < |links| && IsSocialLink(links[i])
      && forall j :: 0 <= j < i ==> !IsSocialLink(links[j])) ==>
      SocialLinks(links) != [] && SocialLinks(links)[0] == links[i]
    ensures (forall i :: 0 <= i < |links| ==> !IsSocialLink(links[i])) ==> SocialLinks(links) == []
  {
    var idx := SocialLinksIndices(links);
    assert Picks(links, IsSocialLink, SocialLinks(links), idx);
    forall i | (0 <= i < |links| && IsSocialLink(links[i]) && forall j :: 0 <= j < i ==> !IsSocialLink(links[j]))
      ensures SocialLinks(links) != [] && SocialLinks(links)[0] == links[i]
    {
      PicksFirst(links, IsSocialLink, SocialLinks(links), idx, i);
    }
    if forall i :: 0 <= i < |links| ==> !IsSocialLink(links[i]) {
      PicksHead(links, IsSocialLink, SocialLinks(links), idx);
    }
  }

  /** A fresh entry: not hidden, votes equal to its popularity score, tags
      the non-empty CSV tags in their order (`NonEmptyIndices`). */
  lemma MapEcosystemEntrySpec(e: EcoItem, id: string)
    ensures var d := MapEcosystemEntry(e, id);
      && d.id == id && d.name == e.name && !d.hidden
      && d.votes == d.popularityScore == PopularityScore(e)
      && (e.csvTags.None? ==> d.tags == [])
      && (e.csvTags.Some? ==> forall t :: t in d.tags <==> t in e.csvTags.value && t != "")
      && (e.csvTags.Some? ==> d.tags == NonEmpty(e.csvTags.value))
      && (e.csvTags.Some? && (forall i :: 0 <= i < |e.csvTags.value| ==> e.csvTags.value[i] != "") ==>
          d.tags == e.csvTags.value)
  {
    if e.csvTags.Some? {
      NonEmptySpec(e.csvTags.value);
    }
  }

  // ---------------------------------------------------------------------
  // dAppsData, the hidden sample and the category views

  const HiddenSampleSize: nat := 12

  /** `baseSlug || randomId` for each entry. */
  function BaseSlugs(entries: seq<EcoItem>, fallbackIds: seq<string>): (r: seq<string>)
    requires |fallbackIds| == |entries|
    ensures |r| == |entries|
  {
    seq(|entries|, i requires 0 <= i < |entries| =>
      if Slugify(entries[i].name) != "" then Slugify(entries[i].name) else fallbackIds[i])
  }

  /** Gives each entry its id: `uniqueSlug(baseSlug || randomId)`, where the
      random fallback ids are supplied by the caller, through the corrected
      `SlugRegistry` rather than the counter as written (see
      `SlugIdsCollide`). Each id is a candidate of the entry's base slug; the
      ids are distinct and new; and when the ids the counter as written would
      give are distinct and new, these are exactly those ids. */
  method AssignIds(entries: seq<EcoItem>, fallbackIds: seq<string>, registry: SlugRegistry)
    returns (ids: seq<string>)
    requires |fallbackIds| == |entries|
    modifies registry
    ensures |ids| == |entries| && NoDup(ids)
    ensures forall i :: 0 <= i < |ids| ==> IsCandidate(ids[i], BaseSlugs(entries, fallbackIds)[i])
    ensures forall i :: 0 <= i < |ids| ==> ids[i] !in old(registry.issued)
    ensures registry.issued == old(registry.issued) + Elements(ids)
    ensures var written := SlugIds(old(registry.counts), BaseSlugs(entries, fallbackIds));
      AllNew(written, old(registry.issued)) ==>
        ids == written && registry.counts == SlugCounts(old(registry.counts), BaseSlugs(entries, fallbackIds))
  {
    ghost var bases := BaseSlugs(entries, fallbackIds);
    ghost var counts0, issued0 := registry.counts, registry.issued;
    ids := [];
    assert bases[..0] == [];
    var i := 0;
    while i < |entries|
      invariant 0 <= i <= |entries| && |ids| == i
      invariant Assigned(registry.counts, registry.issued, ids, bases, counts0, issued0)
    {
      var baseSlug := Slugify(entries[i].name);
      var slug := if baseSlug != "" then baseSlug else fallbackIds[i];
      var id := AssignNext(registry, slug, ids, bases, counts0, issued0);
      ids := ids + [id];
      i := i + 1;
    }
    assert bases[..i] == bases;
  }

  /** The ids in `ids`. */
  function Elements(ids: seq<string>): set<string> {
    set k | 0 <= k < |ids| :: ids[k]
  }

  /** `ids` are distinct and none of them is in `issued`. */
  predicate AllNew(ids: seq<string>, issued: set<string>) {
    NoDup(ids) && forall k :: 0 <= k < |ids| ==> ids[k] !in issued
  }

  /** What the `AssignIds` loop keeps: the ids so far are new, distinct
      candidates of their base slugs and are all the registry has added; and
      while the counter as written would give new, distinct ids, they are
      its ids and the registry's counts are its counts. */
  ghost predicate Assigned(counts: map<string, nat>, issued: set<string>, ids: seq<string>,
                           bases: seq<string>, counts0: map<string, nat>, issued0: set<string>)
  {
    && |ids| <= |bases|
    && AllNew(ids, issued0)
    && (forall k :: 0 <= k < |ids| ==> IsCandidate(ids[k], bases[k]))
    && issued == issued0 + Elements(ids)
    && (AllNew(SlugIds(counts0, bases), issued0) ==>
          ids == SlugIds(counts0, bases[..|ids|]) && counts == SlugCounts(counts0, bases[..|ids|]))
  }

  /** One turn of the `AssignIds` loop: the registry issues a new id for the
      next base slug, the counter's own id when that one is free. */
  method AssignNext(registry: SlugRegistry, slug: string, ghost ids: seq<string>,
                    ghost bases: seq<string>, ghost counts0: map<string, nat>, ghost issued0: set<string>)
    returns (id: string)
    requires |ids| < |bases| && slug == bases[|ids|]
    requires Assigned(registry.counts, registry.issued, ids, bases, counts0, issued0)
    modifies registry
    ensures Assigned(registry.counts, registry.issued, ids + [id], bases, counts0, issued0)
  {
    if AllNew(SlugIds(counts0, bases), issued0) {
      AsWrittenStep(counts0, bases, |ids|, issued0, ids);
    }
    id := registry.UniqueSlug(slug);
    ghost var c: nat :| id == Suffixed(slug, c);
    forall k | 0 <= k < |ids| ensures ids[k] != id {
      assert ids[k] in Elements(ids);
    }
    NoDupAppend(ids, id);
    ElementsSnoc(ids, id);
    var s := ids + [id];
    forall k | 0 <= k < |s| ensures IsCandidate(s[k], bases[k]) {
      if k < |ids| {
        assert s[k] == ids[k];
      } else {
        assert s[k] == Suffixed(bases[k], c);
      }
    }
  }

  /** `id` is one of the ids `uniqueSlug` may give `slug`: the slug itself
      or the slug with a numeric suffix. */
  ghost predicate IsCandidate(id: string, slug: string) {
    exists c: nat :: id == Suffixed(slug, c)
  }

  /** The ids of `ids + [id]` are those of `ids` and `id`. */
  lemma ElementsSnoc(ids: seq<string>, id: string)
    ensures Elements(ids + [id]) == Elements(ids) + {id}
  {
    var s := ids + [id];
    assert s[|ids|] == id;
    forall k | 0 <= k < |ids| ensures s[k] == ids[k] {
    }
  }

  /** While the ids as written are distinct and new, the next one is free:
      the registry then hands it out and counts as the counter would. */
  lemma AsWrittenStep(counts0: map<string, nat>, bases: seq<string>, i: nat, issued0: set<string>, ids: seq<string>)
    requires i < |bases| && ids == SlugIds(counts0, bases[..i])
    requires AllNew(SlugIds(counts0, bases), issued0)
    ensures var step := SlugStep(SlugCounts(counts0, bases[..i]), bases[i]);
      && step.0 !in issued0 + Elements(ids)
      && SlugIds(counts0, bases[..i + 1]) == ids + [step.0]
      && SlugCounts(counts0, bases[..i + 1]) == step.1
  {
    var ci := SlugCounts(counts0, bases[..i]);
    var step := SlugStep(ci, bases[i]);
    var written := SlugIds(counts0, bases);
    var rest := bases[i..];
    assert bases == bases[..i] + rest;
    SlugIdsAppend(counts0, bases[..i], rest);
    assert rest[0] == bases[i];
    assert SlugIds(ci, rest)[0] == step.0;
    assert written[i] == step.0;
    forall k | 0 <= k < |ids| ensures ids[k] != step.0 {
      assert ids[k] == written[k];
    }
    assert bases[..i + 1] == bases[..i] + [bases[i]];
    SlugIdsAppend(counts0, bases[..i], [bases[i]]);
    assert SlugIds(ci, [bases[i]]) == [step.0];
    assert SlugCounts(ci, [bases[i]]) == step.1;
  }

  /** `(ecosystem.data).map(mapEcosystemEntry)` once the ids are chosen. */
  function MapAll(entries: seq<EcoItem>, ids: seq<string>): (items: seq<DappItem>)
    requires |ids| == |entries|
  {
    seq(|entries|, i requires 0 <= i < |entries| => MapEcosystemEntry(entries[i], ids[i]))
  }

  /** `dAppsData.slice(0, 12).forEach((item) => { item.hidden = true })` */
  method MarkHidden(items: seq<DappItem>) returns (marked: seq<DappItem>)
    ensures |marked| == |items|
    ensures forall i :: 0 <= i < |items| ==>
      marked[i] == if i < HiddenSampleSize then items[i].(hidden := true) else items[i]
  {
    marked := items;
    var i := 0;
    while i < |marked| && i < HiddenSampleSize
      invariant 0 <= i <= |items| && i <= HiddenSampleSize && |marked| == |items|
      invariant forall k :: 0 <= k < |items| ==>
        marked[k] == if k < i then items[k].(hidden := true) else items[k]
    {
      marked := marked[i := marked[i].(hidden := true)];
      i := i + 1;
    }
  }

  /** Exactly the first `min(12, n)` entries of a fresh catalogue are hidden. */
  lemma HiddenSample(entries: seq<EcoItem>, ids: seq<string>, marked: seq<DappItem>)
    requires |ids| == |entries| && |marked| == |entries|
    requires forall i :: 0 <= i < |entries| ==>
      marked[i] == if i < HiddenSampleSize then MapAll(entries, ids)[i].(hidden := true) else MapAll(entries, ids)[i]
    ensures forall i :: 0 <= i < |marked| ==> (marked[i].hidden <==> i < HiddenSampleSize)
  {
    forall i | 0 <= i < |marked|
      ensures marked[i].hidden <==> i < HiddenSampleSize
    {
      MapEcosystemEntrySpec(entries[i], ids[i]);
    }
  }

  /** The `categorySet` after the items, in insertion order. */
  function CategorySet(items: seq<DappItem>): seq<string>
    decreases |items|
  {
    if items == [] then []
    else AddAll(CategorySet(items[..|items| - 1]), items[|items| - 1].categories)
  }

  /** `categorySet.add(category)` for each non-empty category, in order. */
  function AddAll(set0: seq<string>, cats: seq<string>): seq<string>
    decreases |cats|
  {
    if cats == [] then set0
    else
      var s := if cats[0] != "" && cats[0] !in set0 then set0 + [cats[0]] else set0;
      AddAll(s, cats[1..])
  }

  lemma {:induction false} AddAllSpec(set0: seq<string>, cats: seq<string>)
    requires NoDup(set0)
    ensures NoDup(AddAll(set0, cats))
    ensures forall c :: c in AddAll(set0, cats) <==> c in set0 || (c in cats && c != "")
    decreases |cats|
  {
    if cats != [] {
      var s := if cats[0] != "" && cats[0] !in set0 then set0 + [cats[0]] else set0;
      if cats[0] != "" && cats[0] !in set0 {
        NoDupAppend(set0, cats[0]);
      }
      AddAllSpec(s, cats[1..]);
      assert cats == [cats[0]] + cats[1..];
    }
  }

  /** The set holds each non-empty category of any item, once. */
  lemma {:induction false} CategorySetSpec(items: seq<DappItem>)
    ensures NoDup(CategorySet(items))
    ensures forall c :: c in CategorySet(items) <==>
      c != "" && exists i :: 0 <= i < |items| && c in items[i].categories
    decreases |items|
  {
    if items != [] {
      var n := |items| - 1;
      CategorySetSpec(items[..n]);
      AddAllSpec(CategorySet(items[..n]), items[n].categories);
      forall c
        ensures c in CategorySet(items) <==> c != "" && exists i :: 0 <= i < |items| && c in items[i].categories
      {
        if c != "" && exists i :: 0 <= i < |items| && c in items[i].categories {
          var i :| 0 <= i < |items| && c in items[i].categories;
          if i < n {
            assert items[..n][i] == items[i];
          }
        }
        if c in CategorySet(items[..n]) {
          var i :| 0 <= i < n && c in items[..n][i].categories;
          assert items[i] == items[..n][i];
        }
      }
    }
  }

  /** The two `forEach` loops that fill `categorySet`. */
  method CollectCategories(items: seq<DappItem>) returns (categorySet: seq<string>)
    ensures categorySet == CategorySet(items)
  {
    categorySet := [];
    var i := 0;
    while i < |items|
      invariant 0 <= i <= |items|
      invariant categorySet == CategorySet(items[..i])
    {
      assert items[..i + 1][..i] == items[..i];
      var cats := items[i].categories;
      ghost var before := categorySet;
      var j := 0;
      while j < |cats|
        invariant 0 <= j <= |cats|
        invariant AddAll(categorySet, cats[j..]) == AddAll(before, cats)
      {
        assert cats[j..][1..] == cats[j + 1..];
        var category := cats[j];
        if category != "" && category !in categorySet {
          categorySet := categorySet + [category];
        }
        j := j + 1;
      }
      i := i + 1;
    }
    assert items[..i] == items;
  }

  /** Insertion into a sorted list. */
  function Insert(x: string, s: seq<string>): seq<string> {
    if s == [] then [x]
    else if StrLe(x, s[0]) then [x] + s
    else [s[0]] + Insert(x, s[1..])
  }

  /** The list sorted by code-point order. */
  function SortStrings(s: seq<string>): seq<string> {
    if s == [] then [] else Insert(s[0], SortStrings(s[1..]))
  }

  predicate SortedStrings(s: seq<string>) {
    forall i, j :: 0 <= i < j < |s| ==> StrLe(s[i], s[j])
  }

  lemma {:induction false} InsertMultiset(x: string, s: seq<string>)
    ensures multiset(Insert(x, s)) == multiset(s) + multiset{x}
  {
    if s != [] && !StrLe(x, s[0]) {
      InsertMultiset(x, s[1..]);
      assert s == [s[0]] + s[1..];
    }
  }

  lemma {:induction false} InsertMembers(x: string, s: seq<string>)
    ensures forall y :: y in Insert(x, s) <==> y == x || y in s
  {
    if s != [] && !StrLe(x, s[0]) {
      InsertMembers(x, s[1..]);
      assert s == [s[0]] + s[1..];
    }
  }

  /** The head of a sorted list is below every element. */
  lemma SortedHead(s: seq<string>, y: string)
    requires SortedStrings(s) && s != [] && y in s
    ensures StrLe(s[0], y)
  {
    var k :| 0 <= k < |s| && s[k] == y;
    if k == 0 {
      StrLeTotal(y, y);
    }
  }

  lemma {:induction false} InsertSorted(x: string, s: seq<string>)
    requires SortedStrings(s)
    ensures SortedStrings(Insert(x, s))
  {
    if s != [] {
      if StrLe(x, s[0]) {
        forall j | 1 <= j < |s| + 1
          ensures StrLe(x, ([x] + s)[j])
        {
          if j > 1 {
            StrLeTransitive(x, s[0], s[j - 1]);
          }
        }
      } else {
        StrLeTotal(x, s[0]);
        assert SortedStrings(s[1..]) by {
          assert forall i :: 0 <= i < |s| - 1 ==> s[1..][i] == s[i + 1];
        }
        InsertSorted(x, s[1..]);
        InsertMembers(x, s[1..]);
        var t := Insert(x, s[1..]);
        forall j | 0 <= j < |t|
          ensures StrLe(s[0], t[j])
        {
          if t[j] != x {
            assert t[j] in t;
            assert t[j] in s[1..];
            var k :| 0 <= k < |s| - 1 && s[1..][k] == t[j];
            assert s[k + 1] == t[j];
            SortedHead(s, t[j]);
          }
        }
        assert Insert(x, s) == [s[0]] + t;
      }
    }
  }

  lemma {:induction false} SortStringsSpec(s: seq<string>)
    ensures SortedStrings(SortStrings(s))
    ensures multiset(SortStrings(s)) == multiset(s)
  {
    if s != [] {
      SortStringsSpec(s[1..]);
      InsertSorted(s[0], SortStrings(s[1..]));
      InsertMultiset(s[0], SortStrings(s[1..]));
      assert s == [s[0]] + s[1..];
    }
  }

  /** `categories`: `'All'` followed by the distinct non-empty categories in
      order. */
  function Categories(items: seq<DappItem>): seq<string> {
    ["All"] + SortStrings(CategorySet(items))
  }

  /** After `'All'`, every non-empty category of an item appears exactly
      once, in ascending order, and nothing else does. */
  lemma CategoriesSpec(items: seq<DappItem>)
    ensures var cs := Categories(items)[1..];
      && SortedStrings(cs) && NoDup(cs)
      && forall c :: c in cs <==> c != "" && exists i :: 0 <= i < |items| && c in items[i].categories
  {
    var set0 := CategorySet(items);
    CategorySetSpec(items);
    SortStringsSpec(set0);
    var cs := SortStrings(set0);
    assert Categories(items)[1..] == cs;
    SameMultiset(set0, cs);
  }

  /** A reordering keeps the members and the absence of duplicates. */
  lemma SameMultiset(a: seq<string>, b: seq<string>)
    requires multiset(a) == multiset(b) && NoDup(a)
    ensures NoDup(b) && forall c :: c in b <==> c in a
  {
    forall c
      ensures c in b <==> c in a
    {
      assert c in b <==> c in multiset(b);
      assert c in a <==> c in multiset(a);
    }
    forall i, j | 0 <= i < j < |b|
      ensures b[i] != b[j]
    {
      if b[i] == b[j] {
        TwiceCounted(b, i, j);
        NoDupCount(a, b[i]);
      }
    }
  }

  /** A value at two positions is counted at least twice. */
  lemma TwiceCounted(b: seq<string>, i: nat, j: nat)
    requires i < j < |b| && b[i] == b[j]
    ensures multiset(b)[b[i]] >= 2
  {
    assert b == b[..i] + [b[i]] + b[i + 1..j] + [b[j]] + b[j + 1..];
  }

  /** In a list without duplicates each value occurs at most once. */
  lemma {:induction false} NoDupCount(s: seq<string>, x: string)
    requires NoDup(s)
    ensures multiset(s)[x] <= 1
  {
    if s != [] {
      var n := |s| - 1;
      assert NoDup(s[..n]) by {
        assert forall i, j :: 0 <= i < j < n ==> s[..n][i] == s[i] && s[..n][j] == s[j];
      }
      NoDupCount(s[..n], x);
      assert s == s[..n] + [s[n]];
      assert s[n] !in s[..n];
    }
  }

  /** `dAppsData.filter(pred)` for the two predicates of the views. */
  function Visible(items: seq<DappItem>, category: string): seq<DappItem> {
    if items == [] then []
    else
      var keep := !items[0].hidden && (category == "All" || category in items[0].categories);
      (if keep then [items[0]] else []) + Visible(items[1..], category)
  }

  function Hidden(items: seq<DappItem>): seq<DappItem> {
    if items == [] then []
    else (if items[0].hidden then [items[0]] else []) + Hidden(items[1..])
  }

  /** `getDappsByCategory(category)` */
  function GetDappsByCategory(items: seq<DappItem>, category: string): seq<DappItem> {
    Visible(items, category)
  }

  /** `getHiddenDapps()` */
  function GetHiddenDapps(items: seq<DappItem>): seq<DappItem> {
    Hidden(items)
  }

  /** `'All'` and the hidden view split the catalogue: together they hold
      every entry exactly as often as the catalogue does. */
  lemma {:induction false} AllAndHiddenPartition(items: seq<DappItem>)
    ensures multiset(GetDappsByCategory(items, "All")) + multiset(GetHiddenDapps(items)) == multiset(items)
    ensures forall d :: d in GetHiddenDapps(items) ==> d.hidden
    ensures forall d :: d in GetDappsByCategory(items, "All") ==> !d.hidden
  {
    if items != [] {
      AllAndHiddenPartition(items[1..]);
      assert items == [items[0]] + items[1..];
    }
  }

  /** Any other category gives exactly the visible entries that list it. */
  lemma {:induction false} ByCategorySpec(items: seq<DappItem>, category: string)
    requires category != "All"
    ensures forall d :: d in GetDappsByCategory(items, category) <==>
      d in items && !d.hidden && category in d.categories
  {
    if items != [] {
      ByCategorySpec(items[1..], category);
      assert items == [items[0]] + items[1..];
    }
  }

  /** The test `getDappsByCategory` filters on. */
  predicate Shown(d: DappItem, category: string) {
    !d.hidden && (category == "All" || category in d.categories)
  }

  /** A category view is the catalogue filtered in place: it is the entries
      at the increasing positions `idx`, and those are exactly the positions
      of entries the view shows. */
  lemma {:induction false} ByCategoryIndices(items: seq<DappItem>, category: string) returns (idx: seq<nat>)
    ensures var r := GetDappsByCategory(items, category);
      && |idx| == |r|
      && (forall k :: 0 <= k < |idx| ==> idx[k] < |items| && items[idx[k]] == r[k])
      && (forall k, l :: 0 <= k < l < |idx| ==> idx[k] < idx[l])
      && (forall j :: 0 <= j < |items| ==> (j in idx <==> Shown(items[j], category)))
    decreases |items|
  {
    var keep := d => Shown(d, category);
    if items == [] {
      idx := [];
    } else {
      var rest := ByCategoryIndices(items[1..], category);
      var r' := GetDappsByCategory(items[1..], category);
      assert Picks(items[1..], keep, r', rest);
      assert GetDappsByCategory(items, category) == if keep(items[0]) then [items[0]] + r' else r';
      idx := PicksCons(items, keep, r', rest);
    }
  }

  // ---------------------------------------------------------------------
  // Filters, position by position

  /** `r` is `xs` filtered by `keep`: the entries of `xs` at the increasing
      positions `idx`, which are exactly the positions `keep` accepts. */
  ghost predicate Picks<T>(xs: seq<T>, keep: T -> bool, r: seq<T>, idx: seq<nat>) {
    && |idx| == |r|
    && (forall k :: 0 <= k < |idx| ==> idx[k] < |xs| && xs[idx[k]] == r[k])
    && (forall k, l :: 0 <= k < l < |idx| ==> idx[k] < idx[l])
    && (forall j :: 0 <= j < |xs| ==> (j in idx <==> keep(xs[j])))
  }

  /** The first accepted entry heads the filtered sequence. */
  lemma PicksFirst<T>(xs: seq<T>, keep: T -> bool, r: seq<T>, idx: seq<nat>, i: nat)
    requires Picks(xs, keep, r, idx)
    requires i < |xs| && keep(xs[i]) && forall j :: 0 <= j < i ==> !keep(xs[j])
    ensures r != [] && r[0] == xs[i]
  {
    assert i in idx;
    assert idx[0] in idx;
    assert idx[0] <= i && keep(xs[idx[0]]);
  }

  /** A non-empty filtered sequence starts with an accepted entry. */
  lemma PicksHead<T>(xs: seq<T>, keep: T -> bool, r: seq<T>, idx: seq<nat>)
    requires Picks(xs, keep, r, idx)
    ensures r != [] ==> idx[0] < |xs| && r[0] == xs[idx[0]] && keep(xs[idx[0]])
  {
    if r != [] {
      assert idx[0] in idx;
    }
  }

  /** Filtering one more entry in front: the positions of the rest move one
      on, and position 0 joins them when `keep` accepts `xs[0]`. */
  lemma PicksCons<T>(xs: seq<T>, keep: T -> bool, r: seq<T>, rest: seq<nat>) returns (idx: seq<nat>)
    requires xs != [] && Picks(xs[1..], keep, r, rest)
    ensures Picks(xs, keep, if keep(xs[0]) then [xs[0]] + r else r, idx)
  {
    var shifted := Shift(rest);
    ShiftElements(xs, r, rest);
    ShiftMembers(xs, keep, rest);
    if keep(xs[0]) {
      idx := PrependIndex(xs, keep, r, shifted);
    } else {
      idx := shifted;
    }
  }

  /** Every position one further on. */
  function Shift(rest: seq<nat>): (r: seq<nat>)
    ensures |r| == |rest| && forall k :: 0 <= k < |r| ==> r[k] == rest[k] + 1
  {
    seq(|rest|, k requires 0 <= k < |rest| => rest[k] + 1)
  }

  lemma ShiftElements<T>(xs: seq<T>, r: seq<T>, rest: seq<nat>)
    requires xs != [] && |rest| == |r|
    requires forall k :: 0 <= k < |rest| ==> rest[k] < |xs[1..]| && xs[1..][rest[k]] == r[k]
    ensures forall k :: 0 <= k < |rest| ==> Shift(rest)[k] < |xs| && xs[Shift(rest)[k]] == r[k]
  {
    var tail := xs[1..];
    forall k | 0 <= k < |rest| ensures Shift(rest)[k] < |xs| && xs[Shift(rest)[k]] == r[k] {
      assert xs[rest[k] + 1] == tail[rest[k]];
    }
  }

  lemma ShiftMembers<T>(xs: seq<T>, keep: T -> bool, rest: seq<nat>)
    requires xs != []
    requires forall j :: 0 <= j < |xs[1..]| ==> (j in rest <==> keep(xs[1..][j]))
    ensures forall j :: 1 <= j < |xs| ==> (j in Shift(rest) <==> keep(xs[j]))
  {
    var tail := xs[1..];
    var shifted := Shift(rest);
    forall j | 1 <= j < |xs| ensures j in shifted <==> keep(xs[j]) {
      assert xs[j] == tail[j - 1];
      if j - 1 in rest {
        var k :| 0 <= k < |rest| && rest[k] == j - 1;
        assert shifted[k] == j;
      }
      if j in shifted {
        var k :| 0 <= k < |shifted| && shifted[k] == j;
        assert rest[k] == j - 1;
      }
    }
  }

  /** An accepted first entry goes in front of the filtered rest. */
  lemma PrependIndex<T>(xs: seq<T>, keep: T -> bool, r: seq<T>, shifted: seq<nat>)
    returns (idx: seq<nat>)
    requires xs != [] && keep(xs[0])
    requires |shifted| == |r| && forall k :: 0 <= k < |shifted| ==> 0 < shifted[k]
    requires forall k :: 0 <= k < |shifted| ==> shifted[k] < |xs| && xs[shifted[k]] == r[k]
    requires forall k, l :: 0 <= k < l < |shifted| ==> shifted[k] < shifted[l]
    requires forall j :: 1 <= j < |xs| ==> (j in shifted <==> keep(xs[j]))
    ensures Picks(xs, keep, [xs[0]] + r, idx)
  {
    idx := [0] + shifted;
    var r0 := [xs[0]] + r;
    forall k | 0 <= k < |idx| ensures idx[k] < |xs| && xs[idx[k]] == r0[k] {
      if k > 0 {
        assert idx[k] == shifted[k - 1] && r0[k] == r[k - 1];
      }
    }
    forall k, l | 0 <= k < l < |idx| ensures idx[k] < idx[l] {
      assert idx[l] == shifted[l - 1];
      if k > 0 {
        assert idx[k] == shifted[k - 1];
      }
    }
    forall j | 0 <= j < |xs| ensures j in idx <==> keep(xs[j]) {
      if j == 0 {
        assert idx[0] == 0;
      } else {
        assert j in idx <==> j in shifted;
      }
    }
  }
}
