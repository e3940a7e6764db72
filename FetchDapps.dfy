/** The pure and in-memory parts of scripts/fetchDapps.js: white-space
    normalisation, the name-keyed store that merges scraped entries, and the
    line-based fallback parser over the page's text lines. */
module FetchDapps {
  import opened Common
  import opened Strings

  // ---------------------------------------------------------------------
  // normalize

  /** `s.replace(/\s+/g, ' ')`: every maximal run of white space becomes one
      space. */
  function CollapseSpaces(s: string): string
    decreases |s|
  {
    if s == [] then []
    else if IsSpace(s[0]) then
      TrimStartSpec(s);
      [' '] + CollapseSpaces(TrimStart(s))
    else [s[0]] + CollapseSpaces(s[1..])
  }

  /** A string whose only white space is single `' '` characters. */
  predicate Collapsed(s: string) {
    forall i :: 0 <= i < |s| && IsSpace(s[i]) ==> s[i] == ' ' && (i + 1 < |s| ==> !IsSpace(s[i + 1]))
  }

  /** `normalize(value)`; `None` stands for any falsy value. */
  function Normalize(value: Option<string>): string {
    Trim(CollapseSpaces(value.GetOr("")))
  }

  /** Collapsing keeps a non-space first character in front. */
  lemma CollapseHead(s: string)
    requires s != [] && !IsSpace(s[0])
    ensures CollapseSpaces(s) != [] && CollapseSpaces(s)[0] == s[0]
  {
  }

  /** The collapsed string is `Collapsed`, and a `Collapsed` string is left
      as it is. */
  lemma {:induction false} CollapseSpec(s: string)
    ensures Collapsed(CollapseSpaces(s))
    ensures Collapsed(s) ==> CollapseSpaces(s) == s
    decreases |s|
  {
    if s != [] {
      if IsSpace(s[0]) {
        TrimStartSpec(s);
        var t := TrimStart(s);
        CollapseSpec(t);
        if t != [] {
          CollapseHead(t);
        }
        if Collapsed(s) {
          assert s[1..] == [] || !IsSpace(s[1]);
          assert TrimStart(s) == TrimStart(s[1..]);
          assert TrimStart(s[1..]) == s[1..];
          assert Collapsed(s[1..]);
        }
      } else {
        CollapseSpec(s[1..]);
        if Collapsed(s) {
          assert Collapsed(s[1..]);
        }
        var r := CollapseSpaces(s);
        assert r == [s[0]] + CollapseSpaces(s[1..]);
        assert forall i :: 1 <= i < |r| ==> r[i] == CollapseSpaces(s[1..])[i - 1];
      }
    }
  }

  /** A slice of a `Collapsed` string is `Collapsed`. */
  lemma CollapsedSlice(s: string, a: nat, b: nat)
    requires a <= b <= |s| && Collapsed(s)
    ensures Collapsed(s[a..b])
  {
    var t := s[a..b];
    forall i | 0 <= i < |t| && IsSpace(t[i])
      ensures t[i] == ' ' && (i + 1 < |t| ==> !IsSpace(t[i + 1]))
    {
      assert t[i] == s[a + i];
      if i + 1 < |t| {
        assert t[i + 1] == s[a + i + 1];
      }
    }
  }

  /** `trim` returns a slice of its argument. */
  lemma TrimSlice(s: string) returns (a: nat, b: nat)
    ensures a <= b <= |s| && Trim(s) == s[a..b]
  {
    TrimStartSpec(s);
    var t := TrimStart(s);
    TrimEndSpec(t);
    a := |s| - |t|;
    b := a + |TrimEnd(t)|;
  }

  /** A normalised value is trimmed and its only white space is single
      spaces; a falsy value normalises to `''`. */
  lemma NormalizeSpec(value: Option<string>)
    ensures IsTrimmed(Normalize(value)) && Collapsed(Normalize(value))
    ensures value.None? ==> Normalize(value) == ""
  {
    var c := CollapseSpaces(value.GetOr(""));
    CollapseSpec(value.GetOr(""));
    TrimSpec(c);
    var a, b := TrimSlice(c);
    CollapsedSlice(c, a, b);
  }

  /** A string without white space. */
  predicate NoSpace(w: string) {
    forall i :: 0 <= i < |w| ==> !IsSpace(w[i])
  }

  /** The length of the run of non-space characters `s` starts with. */
  function WordLength(s: string): (n: nat)
    ensures n <= |s| && NoSpace(s[..n]) && (n < |s| ==> IsSpace(s[n]))
  {
    if s == [] || IsSpace(s[0]) then 0 else 1 + WordLength(s[1..])
  }

  /** The words of `s`: its maximal runs of non-space characters, in order. */
  function Words(s: string): (r: seq<string>)
    ensures forall k :: 0 <= k < |r| ==> r[k] != [] && NoSpace(r[k])
    decreases |s|
  {
    if s == [] then []
    else if IsSpace(s[0]) then Words(s[1..])
    else
      var n := WordLength(s);
      [s[..n]] + Words(s[n..])
  }

  /** Leading white space starts no word. */
  lemma {:induction false} WordsTrimStart(s: string)
    ensures Words(TrimStart(s)) == Words(s)
    decreases |s|
  {
    if s != [] && IsSpace(s[0]) {
      WordsTrimStart(s[1..]);
    }
  }

  /** The characters of `s` that are not white space, in order. */
  function NonSpace(s: string): string {
    if s == [] then [] else (if IsSpace(s[0]) then [] else [s[0]]) + NonSpace(s[1..])
  }

  lemma {:induction false} NonSpaceAppend(a: string, b: string)
    ensures NonSpace(a + b) == NonSpace(a) + NonSpace(b)
    decreases |a|
  {
    if a == [] {
      assert a + b == b;
    } else {
      assert (a + b)[1..] == a[1..] + b;
      NonSpaceAppend(a[1..], b);
    }
  }

  lemma {:induction false} NonSpaceOfWord(w: string)
    requires NoSpace(w)
    ensures NonSpace(w) == w
    decreases |w|
  {
    if w != [] {
      NonSpaceOfWord(w[1..]);
    }
  }

  lemma {:induction false} NonSpaceTrimStart(s: string)
    ensures NonSpace(TrimStart(s)) == NonSpace(s)
    decreases |s|
  {
    if s != [] && IsSpace(s[0]) {
      NonSpaceTrimStart(s[1..]);
    }
  }

  /** The words hold exactly the non-space characters of `s`, in order. */
  lemma {:induction false} WordsKeepCharacters(s: string)
    ensures Concat(Words(s)) == NonSpace(s)
    decreases |s|
  {
    if s != [] {
      if IsSpace(s[0]) {
        WordsKeepCharacters(s[1..]);
      } else {
        var n := WordLength(s);
        assert s == s[..n] + s[n..];
        NonSpaceAppend(s[..n], s[n..]);
        NonSpaceOfWord(s[..n]);
        WordsKeepCharacters(s[n..]);
        var ws := Words(s);
        assert ws[1..] == Words(s[n..]);
      }
    }
  }

  /** Collapsing passes a leading run of non-space characters through. */
  lemma {:induction false} CollapseWord(t: string, n: nat)
    requires n <= |t| && NoSpace(t[..n])
    ensures CollapseSpaces(t) == t[..n] + CollapseSpaces(t[n..])
    decreases n
  {
    if n > 0 {
      assert t[0] == t[..n][0];
      CollapseWord(t[1..], n - 1);
      assert t[1..][..n - 1] == t[1..n];
      assert t[1..][n - 1..] == t[n..];
      assert t[..n] == [t[0]] + t[1..n];
    }
  }

  /** `s` ends in white space. */
  predicate EndsInSpace(s: string) {
    s != [] && IsSpace(s[|s| - 1])
  }

  /** A run of white space collapses to one space and separates no words. */
  lemma SpaceRun(rest: string)
    requires rest != [] && IsSpace(rest[0])
    ensures CollapseSpaces(rest) == " " + CollapseSpaces(TrimStart(rest))
    ensures Words(rest) == Words(TrimStart(rest))
    ensures var u := TrimStart(rest); |u| < |rest| && (u == [] || !IsSpace(u[0]))
    ensures var u := TrimStart(rest); EndsInSpace(rest) <==> (u == [] || EndsInSpace(u))
  {
    TrimStartSpec(rest);
    var u := TrimStart(rest);
    WordsTrimStart(rest);
    if u != [] {
      assert u[|u| - 1] == rest[|rest| - 1];
    }
  }

  /** From a non-space character on, collapsing gives the words joined by
      single spaces, plus one space when the string ends in white space. */
  lemma {:induction false} CollapseFromWord(t: string)
    requires t == [] || !IsSpace(t[0])
    ensures CollapseSpaces(t) == Join(Words(t), " ") + (if EndsInSpace(t) then " " else "")
    decreases |t|
  {
    if t != [] {
      var n := WordLength(t);
      var w, rest := t[..n], t[n..];
      assert Words(t) == [w] + Words(rest) && CollapseSpaces(t) == w + CollapseSpaces(rest)
        && (EndsInSpace(t) <==> EndsInSpace(rest)) && (rest == [] || IsSpace(rest[0])) by {
        FirstWord(t);
      }
      if rest == [] {
        assert Words(t) == [w] && CollapseSpaces(t) == w + [];
      } else {
        var u := TrimStart(rest);
        assert CollapseSpaces(rest) == " " + CollapseSpaces(u) && Words(rest) == Words(u)
          && |u| < |rest| && (u == [] || !IsSpace(u[0])) && (EndsInSpace(rest) <==> u == [] || EndsInSpace(u)) by {
          SpaceRun(rest);
        }
        if u == [] {
          assert Words(t) == [w] && CollapseSpaces(t) == w + (" " + []);
        } else {
          CollapseFromWord(u);
          JoinCons(w, Words(u), " ");
          Reassociate(w, Join(Words(u), " "), if EndsInSpace(t) then " " else "");
        }
      }
    }
  }

  lemma Reassociate(w: string, j: string, tr: string)
    ensures w + (" " + (j + tr)) == (w + " " + j) + tr
  {
  }

  /** Splitting off the first word of `t`. */
  lemma FirstWord(t: string)
    requires t != [] && !IsSpace(t[0])
    ensures var n := WordLength(t);
      && 0 < n && Words(t) == [t[..n]] + Words(t[n..])
      && CollapseSpaces(t) == t[..n] + CollapseSpaces(t[n..])
      && (t[n..] == [] || IsSpace(t[n..][0]))
      && (EndsInSpace(t) <==> EndsInSpace(t[n..]))
  {
    var n := WordLength(t);
    CollapseWord(t, n);
    if t[n..] != [] {
      assert t[n..][|t[n..]| - 1] == t[|t| - 1];
    }
  }

  /** `s.replace(/\s+/g, ' ')` is the words of `s` joined by single spaces,
      with one space in front when `s` starts with white space and one behind
      when it has a word and ends with white space. */
  lemma CollapseWords(s: string)
    ensures CollapseSpaces(s) ==
      (if s != [] && IsSpace(s[0]) then " " else "")
      + Join(Words(s), " ")
      + (if Words(s) != [] && EndsInSpace(s) then " " else "")
  {
    if s != [] && IsSpace(s[0]) {
      CollapseLeadingSpace(s);
    } else {
      CollapseFromWord(s);
      if s != [] {
        FirstWord(s);
      }
    }
  }

  /** `CollapseWords` for a string that starts with white space. */
  lemma CollapseLeadingSpace(s: string)
    requires s != [] && IsSpace(s[0])
    ensures CollapseSpaces(s) == " " + Join(Words(s), " ") + (if Words(s) != [] && EndsInSpace(s) then " " else "")
  {
    var u := TrimStart(s);
    assert CollapseSpaces(s) == " " + CollapseSpaces(u) && Words(s) == Words(u)
      && (u == [] || !IsSpace(u[0])) && (EndsInSpace(s) <==> u == [] || EndsInSpace(u)) by {
      SpaceRun(s);
    }
    if u == [] {
      assert Words(u) == [] && CollapseSpaces(u) == [];
    } else {
      assert Words(u) != [] by {
        FirstWord(u);
      }
      CollapseFromWord(u);
    }
  }

  lemma {:induction false} JoinWordsTrimmed(ws: seq<string>)
    requires forall k :: 0 <= k < |ws| ==> ws[k] != [] && NoSpace(ws[k])
    ensures var j := Join(ws, " "); j == [] <==> ws == []
    ensures var j := Join(ws, " "); j != [] ==> !IsSpace(j[0]) && !IsSpace(j[|j| - 1])
    decreases |ws|
  {
    if |ws| > 1 {
      JoinWordsTrimmed(ws[1..]);
      JoinCons(ws[0], ws[1..], " ");
      assert [ws[0]] + ws[1..] == ws;
    }
  }

  /** `normalize(s)` is the words of `s` joined by single spaces: every
      non-space character survives in order (`WordsKeepCharacters`), with one
      space exactly where white space separated two of them. */
  lemma NormalizeWords(s: string)
    ensures Normalize(Some(s)) == Join(Words(s), " ")
  {
    CollapseWords(s);
    var j := Join(Words(s), " ");
    JoinWordsTrimmed(Words(s));
    var p := if s != [] && IsSpace(s[0]) then " " else "";
    var q := if Words(s) != [] && EndsInSpace(s) then " " else "";
    assert AllSpace(p) && AllSpace(q);
    TrimPadded(p, j, q);
  }

  /** Normalising twice is normalising once. */
  lemma NormalizeIdempotent(value: Option<string>)
    ensures Normalize(Some(Normalize(value))) == Normalize(value)
  {
    var n := Normalize(value);
    NormalizeSpec(value);
    CollapseSpec(n);
    TrimSpec(n);
  }

  // ---------------------------------------------------------------------
  // unique

  /** `[...new Set(arr.filter(Boolean))]`: the non-empty strings of `arr`,
      each once, in order of first occurrence. */
  function Unique(arr: seq<string>): seq<string>
    decreases |arr|
  {
    if arr == [] then []
    else
      var n := |arr| - 1;
      var u := Unique(arr[..n]);
      if arr[n] == "" || arr[n] in u then u else u + [arr[n]]
  }

  /** A list `Unique` leaves as it is: no duplicates and no empty string. */
  predicate Clean(s: seq<string>) {
    NoDup(s) && "" !in s
  }

  /** `Unique` keeps exactly the non-empty strings, each once. */
  lemma {:induction false} UniqueSpec(arr: seq<string>)
    ensures Clean(Unique(arr))
    ensures forall x :: x in Unique(arr) <==> x in arr && x != ""
    decreases |arr|
  {
    if arr != [] {
      var n := |arr| - 1;
      UniqueSpec(arr[..n]);
      assert arr == arr[..n] + [arr[n]];
      var u := Unique(arr[..n]);
      if !(arr[n] == "" || arr[n] in u) {
        NoDupAppend(u, arr[n]);
      }
    }
  }

  /** A clean list is its own `Unique`; in particular `Unique` is idempotent. */
  lemma {:induction false} UniqueOfClean(s: seq<string>)
    requires Clean(s)
    ensures Unique(s) == s
    decreases |s|
  {
    if s != [] {
      var n := |s| - 1;
      assert Clean(s[..n]) by {
        assert forall i, j :: 0 <= i < j < n ==> s[..n][i] == s[i] && s[..n][j] == s[j];
        assert forall x :: x in s[..n] ==> x in s;
      }
      UniqueOfClean(s[..n]);
      assert s[n] !in s[..n];
      assert s == s[..n] + [s[n]];
    }
  }

  /** First occurrences decide the order: the unique values of a list are
      kept, in place, at the front of those of any extension of it. */
  lemma {:induction false} UniquePrefix(a: seq<string>, b: seq<string>)
    ensures Unique(a) <= Unique(a + b)
    decreases |b|
  {
    if b != [] {
      var n := |b| - 1;
      UniquePrefix(a, b[..n]);
      var ab := a + b;
      assert ab[..|ab| - 1] == a + b[..n];
      assert ab[|ab| - 1] == b[n];
      var u := Unique(a + b[..n]);
      assert Unique(ab) == if b[n] == "" || b[n] in u then u else u + [b[n]];
      assert u <= Unique(ab);
    } else {
      assert a + b == a;
    }
  }

  // ---------------------------------------------------------------------
  // mergeEntry

  /** The fields of a scraped entry the store reads; `""` stands for an
      absent or falsy string. */
  datatype Entry = Entry(
    name: string,
    description: string,
    kind: string,
    status: string,
    categories: seq<string>,
    tags: seq<string>,
    source: string)

  /** The store `Map`: its keys in insertion order and its values. */
  datatype StoreState = StoreState(order: seq<string>, records: map<string, Entry>)

  /** What the store keeps: each key once, listed exactly when it has a
      record, and each record's name lower-cases to its key, with clean
      category and tag lists. */
  ghost predicate StoreValid(st: StoreState) {
    && NoDup(st.order)
    && (forall k :: k in st.records <==> k in st.order)
    && forall k :: k in st.records ==>
         ToLower(st.records[k].name) == k && Clean(st.records[k].categories) && Clean(st.records[k].tags)
  }

  /** The record stored when the key is new. */
  function FirstSeen(entry: Entry): Entry {
    entry.(categories := Unique(entry.categories), tags := Unique(entry.tags))
  }

  /** `b` when it is strictly longer than `a` in UTF-16 code units, else `a`. */
  function LongerText(a: string, b: string): string {
    if Utf16Length(b) > Utf16Length(a) then b else a
  }

  /** The record stored over an existing one: the new entry's fields, except
      that the description strictly longer in UTF-16 code units (the
      JavaScript `length`) wins, a falsy type or status keeps the old one,
      and the lists are unions in order. */
  function Combine(existing: Entry, entry: Entry): Entry {
    entry.(
      description := LongerText(existing.description, entry.description),
      kind := if entry.kind != "" then entry.kind else existing.kind,
      status := if entry.status != "" then entry.status else existing.status,
      categories := Unique(existing.categories + entry.categories),
      tags := Unique(existing.tags + entry.tags))
  }

  /** `mergeEntry(store, entry)` on the store's state. */
  function MergeStep(st: StoreState, entry: Entry): StoreState {
    if entry.name == "" then st
    else
      var key := ToLower(entry.name);
      if key !in st.records then StoreState(st.order + [key], st.records[key := FirstSeen(entry)])
      else StoreState(st.order, st.records[key := Combine(st.records[key], entry)])
  }

  /** Merging keeps the store valid, stores the entry under its lower-cased
      name, adds that key at the end only when it is new, and touches no
      other key. */
  lemma MergeStepSpec(st: StoreState, entry: Entry)
    requires StoreValid(st)
    ensures var st' := MergeStep(st, entry);
      && StoreValid(st')
      && (entry.name == "" ==> st' == st)
      && (entry.name != "" ==> ToLower(entry.name) in st'.records)
      && (entry.name != "" && ToLower(entry.name) !in st.records ==> st'.order == st.order + [ToLower(entry.name)])
      && (entry.name != "" && ToLower(entry.name) in st.records ==> st'.order == st.order)
      && |st'.order| <= |st.order| + 1
      && forall k :: k in st.records && k != ToLower(entry.name) ==> k in st'.records && st'.records[k] == st.records[k]
  {
    if entry.name != "" {
      if ToLower(entry.name) !in st.records {
        MergeNewKeyValid(st, entry);
      } else {
        MergeKnownKeyValid(st, entry);
      }
    }
  }

  lemma MergeNewKeyValid(st: StoreState, entry: Entry)
    requires StoreValid(st) && entry.name != "" && ToLower(entry.name) !in st.records
    ensures StoreValid(MergeStep(st, entry))
  {
    var key := ToLower(entry.name);
    LowerIdempotent(entry.name);
    NoDupAppend(st.order, key);
    UniqueSpec(entry.categories);
    UniqueSpec(entry.tags);
  }

  lemma MergeKnownKeyValid(st: StoreState, entry: Entry)
    requires StoreValid(st) && entry.name != "" && ToLower(entry.name) in st.records
    ensures StoreValid(MergeStep(st, entry))
  {
    var key := ToLower(entry.name);
    LowerIdempotent(entry.name);
    var r := Combine(st.records[key], entry);
    assert r.name == entry.name;
    UniqueSpec(st.records[key].categories + entry.categories);
    UniqueSpec(st.records[key].tags + entry.tags);
  }

  /** Names that differ only in letter case land on one record: merging two
      such entries grows the store by at most one key. */
  lemma SameKeyMerges(st: StoreState, e1: Entry, e2: Entry)
    requires StoreValid(st)
    requires e1.name != "" && ToLower(e1.name) == ToLower(e2.name)
    ensures |MergeStep(MergeStep(st, e1), e2).order| <= |st.order| + 1
  {
    MergeStepSpec(st, e1);
  }

  /** A first-seen entry is stored with its lists made unique. */
  lemma FirstSeenSpec(entry: Entry)
    ensures var r := FirstSeen(entry);
      && Clean(r.categories) && Clean(r.tags)
      && (forall c :: c in r.categories <==> c in entry.categories && c != "")
      && (forall t :: t in r.tags <==> t in entry.tags && t != "")
  {
    UniqueSpec(entry.categories);
    UniqueSpec(entry.tags);
  }

  /** Over an existing clean record, the merged lists start with the old
      ones, add exactly the new non-empty values, and hold no duplicate; the
      description is the longer of the two in code units, the old one on a
      tie, so it never gets shorter; a missing type or status falls back to
      the old one; name and source are the new entry's. */
  lemma CombineSpec(existing: Entry, entry: Entry)
    requires Clean(existing.categories) && Clean(existing.tags)
    ensures var r := Combine(existing, entry);
      && existing.categories <= r.categories && existing.tags <= r.tags
      && Clean(r.categories) && Clean(r.tags)
      && (forall c :: c in r.categories <==> c in existing.categories || (c in entry.categories && c != ""))
      && (forall t :: t in r.tags <==> t in existing.tags || (t in entry.tags && t != ""))
      && Utf16Length(r.description) >= Utf16Length(existing.description)
      && Utf16Length(r.description) >= Utf16Length(entry.description)
      && (Utf16Length(entry.description) <= Utf16Length(existing.description) ==> r.description == existing.description)
      && (Utf16Length(entry.description) > Utf16Length(existing.description) ==> r.description == entry.description)
      && (entry.kind != "" ==> r.kind == entry.kind) && (entry.kind == "" ==> r.kind == existing.kind)
      && (entry.status != "" ==> r.status == entry.status) && (entry.status == "" ==> r.status == existing.status)
      && r.name == entry.name && r.source == entry.source
  {
    UniqueOfClean(existing.categories);
    UniqueOfClean(existing.tags);
    UniquePrefix(existing.categories, entry.categories);
    UniquePrefix(existing.tags, entry.tags);
    UniqueSpec(existing.categories + entry.categories);
    UniqueSpec(existing.tags + entry.tags);
  }

  /** Lengths are JavaScript lengths: two characters outside the Basic
      Multilingual Plane are four code units, so they replace a
      three-character description. */
  lemma CombineCountsCodeUnits(existing: Entry, entry: Entry)
    requires existing.description == "abc" && entry.description == "\U{1F680}\U{1F680}"
    ensures Combine(existing, entry).description == entry.description
  {
    assert Utf16Length("\U{1F680}") == 2 by { assert "\U{1F680}"[..0] == []; }
    assert Utf16Length(entry.description) == 4 by { assert entry.description[..1] == "\U{1F680}"; }
    assert Utf16Length("a") == 1 by { assert "a"[..0] == []; }
    assert Utf16Length("ab") == 2 by { assert "ab"[..1] == "a"; }
    assert Utf16Length(existing.description) == 3 by { assert existing.description[..2] == "ab"; }
  }

  /** The store `Map` of `parseFromDom`/`parseFallback`. */
  class DappStore {
    var order: seq<string>
    var records: map<string, Entry>

    function State(): StoreState
      reads this
    {
      StoreState(order, records)
    }

    constructor ()
      ensures State() == StoreState([], map[])
    {
      order, records := [], map[];
    }

    /** `mergeEntry(store, entry)` */
    method MergeEntry(entry: Entry)
      modifies this
      ensures State() == MergeStep(old(State()), entry)
    {
      if entry.name == "" {
        return;
      }
      var key := ToLower(entry.name);
      if key !in records {
        order := order + [key];
        records := records[key := FirstSeen(entry)];
        return;
      }
      var existing := records[key];
      records := records[key := Combine(existing, entry)];
    }
  }

  // ---------------------------------------------------------------------
  // parseFallback

  /** `typeCandidates.has(line)` */
  predicate IsTypeLine(line: string) {
    line == "App" || line == "Infra" || line == "App/Infra"
  }

  /** `statusMatcher.test(line)`: one of the status phrases occurs, in any
      letter case. */
  predicate IsStatusLine(line: string) {
    var l := ToLower(line);
    Contains(l, "coming soon") || Contains(l, "live on testnet") || Contains(l, "live on mainnet")
    || Contains(l, "live") || Contains(l, "launch") || Contains(l, "available")
  }

  /** A line the tag-skipping loop takes as a tag. */
  predicate IsTagLine(line: string) {
    Contains(line, "Only on Monad") || Contains(line, "Coming Soon")
  }

  /** The line at `cursor` continues the tag-skipping loop. */
  predicate SkipsAt(lines: seq<string>, name: string, cursor: nat) {
    cursor < |lines| && lines[cursor] != "" && lines[cursor] != name
    && !IsTypeLine(lines[cursor]) && IsTagLine(lines[cursor])
  }

  /** Where the first `while` of `parseFallback` stops, from `cursor`. */
  function SkipTags(lines: seq<string>, name: string, cursor: nat): (c: nat)
    ensures cursor <= c
    decreases |lines| - cursor
  {
    if SkipsAt(lines, name, cursor) then SkipTags(lines, name, cursor + 1) else cursor
  }

  /** The tag-skipping loop passes only tag lines and stops at the first line
      that is not one it may skip. */
  lemma {:induction false} SkipTagsSpec(lines: seq<string>, name: string, cursor: nat)
    ensures var c := SkipTags(lines, name, cursor);
      && (forall k :: cursor <= k < c ==> SkipsAt(lines, name, k))
      && !SkipsAt(lines, name, c)
    decreases |lines| - cursor
  {
    if SkipsAt(lines, name, cursor) {
      SkipTagsSpec(lines, name, cursor + 1);
    }
  }

  /** The loop stops at the first line from `cursor` that it may not skip. */
  lemma {:induction false} SkipTagsStopsAt(lines: seq<string>, name: string, cursor: nat, c: nat)
    requires cursor <= c && !SkipsAt(lines, name, c)
    requires forall k :: cursor <= k < c ==> SkipsAt(lines, name, k)
    ensures SkipTags(lines, name, cursor) == c
    decreases c - cursor
  {
    if cursor < c {
      SkipTagsStopsAt(lines, name, cursor + 1, c);
    }
  }

  /** What the category scan has gathered: categories (a `Set`, so in
      first-insertion order), tags, and the status. */
  datatype Gathered = Gathered(categories: seq<string>, tags: seq<string>, status: string)

  /** The second `while` of `parseFallback`, from `pointer`. */
  function CategoryScan(lines: seq<string>, name: string, pointer: nat, acc: Gathered): Gathered
    decreases |lines| - pointer
  {
    if pointer >= |lines| then acc
    else
      var value := lines[pointer];
      if IsStatusLine(value) then acc.(status := value)
      else if IsTypeLine(value) || value == name then acc
      else if Contains(value, "Only on Monad") then CategoryScan(lines, name, pointer + 1, acc.(tags := acc.tags + [value]))
      else
        var cats := if value in acc.categories then acc.categories else acc.categories + [value];
        CategoryScan(lines, name, pointer + 1, acc.(categories := cats))
  }

  /** The line at `k` ends the category scan: a status line (taken as the
      status), a type line or the name line. */
  predicate StopsScan(lines: seq<string>, name: string, k: nat)
    requires k < |lines|
  {
    IsStatusLine(lines[k]) || IsTypeLine(lines[k]) || lines[k] == name
  }

  /** The first line from `pointer` that ends the scan, or `|lines|`. */
  function ScanEnd(lines: seq<string>, name: string, pointer: nat): (e: nat)
    ensures pointer <= e && (pointer <= |lines| ==> e <= |lines|)
    decreases |lines| - pointer
  {
    if pointer >= |lines| || StopsScan(lines, name, pointer) then pointer else ScanEnd(lines, name, pointer + 1)
  }

  /** `lines[a..b]`, or nothing when that is no slice. */
  function Slice(lines: seq<string>, a: nat, b: nat): seq<string> {
    if a <= b <= |lines| then lines[a..b] else []
  }

  /** The lines holding `Only on Monad`, in order. */
  function MonadLines(xs: seq<string>): (r: seq<string>)
    ensures forall c :: c in r <==> c in xs && Contains(c, "Only on Monad")
  {
    if xs == [] then []
    else (if Contains(xs[0], "Only on Monad") then [xs[0]] else []) + MonadLines(xs[1..])
  }

  /** The other lines, in order. */
  function OtherLines(xs: seq<string>): (r: seq<string>)
    ensures forall c :: c in r <==> c in xs && !Contains(c, "Only on Monad")
  {
    if xs == [] then []
    else (if Contains(xs[0], "Only on Monad") then [] else [xs[0]]) + OtherLines(xs[1..])
  }

  /** Adding `xs` one by one to the insertion-ordered set `cats`. */
  function AddToSet(cats: seq<string>, xs: seq<string>): seq<string>
    decreases |xs|
  {
    if xs == [] then cats
    else AddToSet(if xs[0] in cats then cats else cats + [xs[0]], xs[1..])
  }

  /** `AddToSet` keeps the old elements first, adds each new value once, and
      adds nothing else. */
  lemma {:induction false} AddToSetSpec(cats: seq<string>, xs: seq<string>)
    requires NoDup(cats)
    ensures var r := AddToSet(cats, xs);
      && cats <= r && NoDup(r)
      && forall c :: c in r <==> c in cats || c in xs
    decreases |xs|
  {
    if xs != [] {
      var cats' := if xs[0] in cats then cats else cats + [xs[0]];
      if xs[0] !in cats {
        NoDupAppend(cats, xs[0]);
      }
      AddToSetSpec(cats', xs[1..]);
      assert forall c :: c in xs <==> c == xs[0] || c in xs[1..];
    }
  }

  /** `ScanEnd` is the first line from `pointer` that ends the scan. */
  lemma {:induction false} ScanEndSpec(lines: seq<string>, name: string, pointer: nat)
    ensures var e := ScanEnd(lines, name, pointer);
      && (forall k :: pointer <= k < e ==> !StopsScan(lines, name, k))
      && (e < |lines| ==> StopsScan(lines, name, e))
    decreases |lines| - pointer
  {
    if pointer < |lines| && !StopsScan(lines, name, pointer) {
      ScanEndSpec(lines, name, pointer + 1);
    }
  }

  /** The scan from `pointer` runs to `ScanEnd` (see `ScanEndSpec`). A status
      line there becomes the status; the `Only on Monad` lines passed become
      tags, in order; every other line passed is added to the categories in
      first-insertion order. */
  lemma {:induction false} CategoryScanResult(lines: seq<string>, name: string, pointer: nat, acc: Gathered)
    ensures var g := CategoryScan(lines, name, pointer, acc);
      var e := ScanEnd(lines, name, pointer);
      && g.status == (if e < |lines| && IsStatusLine(lines[e]) then lines[e] else acc.status)
      && g.tags == acc.tags + MonadLines(Slice(lines, pointer, e))
      && g.categories == AddToSet(acc.categories, OtherLines(Slice(lines, pointer, e)))
    decreases |lines| - pointer
  {
    var e := ScanEnd(lines, name, pointer);
    if pointer >= |lines| || StopsScan(lines, name, pointer) {
      assert e == pointer;
      assert Slice(lines, pointer, e) == [];
    } else {
      var value := lines[pointer];
      assert e == ScanEnd(lines, name, pointer + 1);
      var rest := Slice(lines, pointer + 1, e);
      assert Slice(lines, pointer, e) == [value] + rest;
      if Contains(value, "Only on Monad") {
        var acc' := acc.(tags := acc.tags + [value]);
        assert CategoryScan(lines, name, pointer, acc) == CategoryScan(lines, name, pointer + 1, acc');
        CategoryScanResult(lines, name, pointer + 1, acc');
        MonadScanStep(value, rest, acc.tags);
      } else {
        var cats := if value in acc.categories then acc.categories else acc.categories + [value];
        var acc' := acc.(categories := cats);
        assert CategoryScan(lines, name, pointer, acc) == CategoryScan(lines, name, pointer + 1, acc');
        CategoryScanResult(lines, name, pointer + 1, acc');
        OtherScanStep(value, rest, acc.categories);
      }
    }
  }

  lemma MonadScanStep(value: string, rest: seq<string>, tags: seq<string>)
    requires Contains(value, "Only on Monad")
    ensures tags + [value] + MonadLines(rest) == tags + MonadLines([value] + rest)
    ensures OtherLines([value] + rest) == OtherLines(rest)
  {
    assert ([value] + rest)[1..] == rest;
  }

  lemma OtherScanStep(value: string, rest: seq<string>, cats: seq<string>)
    requires !Contains(value, "Only on Monad")
    ensures MonadLines([value] + rest) == MonadLines(rest)
    ensures AddToSet(if value in cats then cats else cats + [value], OtherLines(rest))
         == AddToSet(cats, OtherLines([value] + rest))
  {
    assert ([value] + rest)[1..] == rest;
    assert OtherLines([value] + rest) == [value] + OtherLines(rest);
    assert ([value] + OtherLines(rest))[1..] == OtherLines(rest);
  }

  /** The entry `parseFallback` builds for the name at line `i`, if any. */
  function Card(lines: seq<string>, i: nat): Option<Entry>
    requires i + 1 < |lines|
  {
    var name := lines[i];
    var typeLine := lines[i + 1];
    if !IsTypeLine(typeLine) then None
    else
      var cursor := SkipTags(lines, name, i + 2);
      if cursor >= |lines| || lines[cursor] != name then None
      else
        var description := if cursor + 1 < |lines| then lines[cursor + 1] else "";
        var g := CategoryScan(lines, name, cursor + 2, Gathered([], lines[i + 2..cursor], ""));
        Some(Entry(name, description, typeLine, g.status, g.categories, g.tags, "fallback"))
  }

  /** A card is recorded at line `i` exactly when the next line is a type
      line and, after tag lines only, the name line repeats. */
  lemma CardSpec(lines: seq<string>, i: nat)
    requires i + 1 < |lines|
    ensures Card(lines, i).Some? <==>
      && IsTypeLine(lines[i + 1])
      && exists c :: i + 2 <= c < |lines| && lines[c] == lines[i]
           && forall k :: i + 2 <= k < c ==> SkipsAt(lines, lines[i], k)
  {
    var name := lines[i];
    SkipTagsSpec(lines, name, i + 2);
    if IsTypeLine(lines[i + 1]) {
      if exists c :: i + 2 <= c < |lines| && lines[c] == name && forall k :: i + 2 <= k < c ==> SkipsAt(lines, name, k) {
        var c :| i + 2 <= c < |lines| && lines[c] == name && forall k :: i + 2 <= k < c ==> SkipsAt(lines, name, k);
        SkipTagsStopsAt(lines, name, i + 2, c);
      }
    }
  }

  /** A recorded card names the line `i`, has the type of line `i + 1`, and
      lists each category once; its tags start with the skipped tag lines. */
  lemma CardFields(lines: seq<string>, i: nat)
    requires i + 1 < |lines| && Card(lines, i).Some?
    ensures var e := Card(lines, i).value;
      var cursor := SkipTags(lines, lines[i], i + 2);
      var stop := ScanEnd(lines, lines[i], cursor + 2);
      var passed := Slice(lines, cursor + 2, stop);
      && e.name == lines[i] && e.kind == lines[i + 1] && e.source == "fallback"
      && e.status == (if stop < |lines| && IsStatusLine(lines[stop]) then lines[stop] else "")
      && e.tags == lines[i + 2..cursor] + MonadLines(passed)
      && e.categories == AddToSet([], OtherLines(passed))
      && NoDup(e.categories)
      && (forall c :: c in e.categories <==> c in passed && !Contains(c, "Only on Monad"))
  {
    var name := lines[i];
    var cursor := SkipTags(lines, name, i + 2);
    var acc := Gathered([], lines[i + 2..cursor], "");
    var g := CategoryScan(lines, name, cursor + 2, acc);
    var stop := ScanEnd(lines, name, cursor + 2);
    var passed := Slice(lines, cursor + 2, stop);
    var e := Card(lines, i).value;
    assert e.name == name && e.kind == lines[i + 1] && e.source == "fallback"
      && e.status == g.status && e.tags == g.tags && e.categories == g.categories by {
      CardScanned(lines, i);
    }
    assert g.status == (if stop < |lines| && IsStatusLine(lines[stop]) then lines[stop] else "")
      && g.tags == lines[i + 2..cursor] + MonadLines(passed)
      && g.categories == AddToSet([], OtherLines(passed)) by {
      CategoryScanResult(lines, name, cursor + 2, acc);
    }
    assert NoDup(g.categories) && forall c :: c in g.categories <==> c in OtherLines(passed) by {
      AddToSetSpec([], OtherLines(passed));
    }
  }

  /** A card's status, tags and categories are those of the category scan. */
  lemma CardScanned(lines: seq<string>, i: nat)
    requires i + 1 < |lines| && Card(lines, i).Some?
    ensures var cursor := SkipTags(lines, lines[i], i + 2);
      var g := CategoryScan(lines, lines[i], cursor + 2, Gathered([], lines[i + 2..cursor], ""));
      var e := Card(lines, i).value;
      e.name == lines[i] && e.kind == lines[i + 1] && e.source == "fallback"
      && e.status == g.status && e.tags == g.tags && e.categories == g.categories
  {
  }

  /** One turn of the `for` loop: merge the card at line `i`, if any. */
  function CardStep(st: StoreState, lines: seq<string>, i: nat): StoreState
    requires i + 1 < |lines|
  {
    match Card(lines, i)
    case None => st
    case Some(e) => MergeStep(st, e)
  }

  /** The store after the cards at lines `0 .. n - 1`, in order. */
  function FallbackState(lines: seq<string>, n: nat, st: StoreState): StoreState
    requires n + 1 <= |lines|
    decreases n
  {
    if n == 0 then st else CardStep(FallbackState(lines, n - 1, st), lines, n - 1)
  }

  /** How many line positions the `for` loop of `parseFallback` visits. */
  function FallbackBound(lines: seq<string>): nat {
    if |lines| > 6 then |lines| - 6 else 0
  }

  /** The fallback pass keeps the store valid and only ever adds keys. */
  lemma {:induction false} FallbackKeepsValid(lines: seq<string>, n: nat, st: StoreState)
    requires n + 1 <= |lines| && StoreValid(st)
    ensures StoreValid(FallbackState(lines, n, st))
    ensures st.order <= FallbackState(lines, n, st).order
    decreases n
  {
    if n > 0 {
      FallbackKeepsValid(lines, n - 1, st);
      var s := FallbackState(lines, n - 1, st);
      match Card(lines, n - 1)
      case None =>
      case Some(e) => MergeStepSpec(s, e);
    }
  }

  /** The first `while`: skips tag lines, collecting them. */
  method SkipTagLines(lines: seq<string>, name: string, start: nat) returns (cursor: nat, tags: seq<string>)
    requires start <= |lines|
    ensures cursor == SkipTags(lines, name, start) && cursor <= |lines|
    ensures tags == lines[start..cursor]
  {
    cursor := start;
    tags := [];
    while SkipsAt(lines, name, cursor)
      invariant start <= cursor <= |lines|
      invariant SkipTags(lines, name, cursor) == SkipTags(lines, name, start)
      invariant tags == lines[start..cursor]
      decreases |lines| - cursor
    {
      tags := tags + [lines[cursor]];
      cursor := cursor + 1;
    }
  }

  /** The second `while`: gathers categories and tags up to a status line,
      a type line or the name line. */
  method ScanCategoryLines(lines: seq<string>, name: string, start: nat, tags0: seq<string>)
    returns (g: Gathered)
    ensures g == CategoryScan(lines, name, start, Gathered([], tags0, ""))
  {
    var pointer := start;
    var categories: seq<string> := [];
    var tags := tags0;
    var status := "";
    while pointer < |lines|
      invariant start <= pointer
      invariant CategoryScan(lines, name, pointer, Gathered(categories, tags, status))
             == CategoryScan(lines, name, start, Gathered([], tags0, ""))
      decreases |lines| - pointer
    {
      var value := lines[pointer];
      if IsStatusLine(value) {
        status := value;
        pointer := pointer + 1;
        break;
      }
      if IsTypeLine(value) || value == name {
        break;
      }
      if Contains(value, "Only on Monad") {
        tags := tags + [value];
      } else if value !in categories {
        categories := categories + [value];
      }
      pointer := pointer + 1;
    }
    g := Gathered(categories, tags, status);
  }

  /** One turn of the `for` loop of `parseFallback`: the entry it merges
      for line `i`, if any. */
  method CardAt(lines: seq<string>, i: nat) returns (card: Option<Entry>)
    requires i + 1 < |lines|
    ensures card == Card(lines, i)
  {
    var name := lines[i];
    var typeLine := lines[i + 1];
    if !IsTypeLine(typeLine) {
      return None;
    }
    var cursor, tags := SkipTagLines(lines, name, i + 2);
    if cursor >= |lines| || lines[cursor] != name {
      return None;
    }
    var description := if cursor + 1 < |lines| then lines[cursor + 1] else "";
    var g := ScanCategoryLines(lines, name, cursor + 2, tags);
    return Some(Entry(name, description, typeLine, g.status, g.categories, g.tags, "fallback"));
  }

  /** `parseFallback(lines, existingStore)` over the already split, trimmed
      and non-empty text lines of the page. */
  method ParseFallback(lines: seq<string>, store: DappStore)
    modifies store
    ensures |lines| <= 6 ==> store.State() == old(store.State())
    ensures |lines| > 6 ==> store.State() == FallbackState(lines, FallbackBound(lines), old(store.State()))
  {
    var i := 0;
    ghost var st0 := store.State();
    while i < FallbackBound(lines)
      invariant i <= FallbackBound(lines)
      invariant |lines| > 6 ==> store.State() == FallbackState(lines, i, st0)
      invariant |lines| <= 6 ==> store.State() == st0
    {
      FallbackTurn(lines, i, store);
      i := i + 1;
    }
  }

  /** The body of the `for` loop of `parseFallback` at line `i`. */
  method FallbackTurn(lines: seq<string>, i: nat, store: DappStore)
    requires i + 1 < |lines|
    modifies store
    ensures store.State() == CardStep(old(store.State()), lines, i)
  {
    var card := CardAt(lines, i);
    if card.Some? {
      store.MergeEntry(card.value);
    }
  }
}
