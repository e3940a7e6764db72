/** The record side of scripts/mergeDappData.mjs: value cleaning, the CSV
    map keyed by normalised name, and the enrichment of the scraped
    ecosystem entries with its counters. */
module CsvMerge {
  import opened Common
  import opened Strings
  import opened CsvParse

  // ---------------------------------------------------------------------
  // Value helpers

  /** `s.replace(/[^a-z0-9]+/g, '')`: the characters of `s` that are ASCII
      lower-case letters or digits, in order. */
  function KeepLowerAlnum(s: string): string {
    if s == [] then []
    else if IsLowerAlnum(s[0]) then [s[0]] + KeepLowerAlnum(s[1..])
    else KeepLowerAlnum(s[1..])
  }

  /** The kept characters are lower-case letters and digits, and a string
      made only of them is kept whole. */
  lemma {:induction false} KeepLowerAlnumSpec(s: string)
    ensures var r := KeepLowerAlnum(s);
      && |r| <= |s|
      && (forall i :: 0 <= i < |r| ==> IsLowerAlnum(r[i]))
      && ((forall i :: 0 <= i < |s| ==> IsLowerAlnum(s[i])) ==> r == s)
    decreases |s|
  {
    if s != [] {
      KeepLowerAlnumSpec(s[1..]);
    }
  }

  /** `normalizeName(value)`; `None` stands for the missing argument, which
      defaults to `''`. */
  function NormalizeName(value: Option<string>): string {
    Trim(KeepLowerAlnum(ToLower(value.GetOr(""))))
  }

  /** A key holds only ASCII lower-case letters and digits, and is exactly
      the name's letters and digits once lower-cased (the final trim never
      has anything to remove). */
  lemma NormalizeNameSpec(value: Option<string>)
    ensures var r := NormalizeName(value);
      && r == KeepLowerAlnum(ToLower(value.GetOr("")))
      && forall i :: 0 <= i < |r| ==> IsLowerAlnum(r[i])
  {
    var kept := KeepLowerAlnum(ToLower(value.GetOr("")));
    KeepLowerAlnumSpec(ToLower(value.GetOr("")));
    assert IsTrimmed(kept);
    TrimSpec(kept);
  }

  /** A normalised name normalises to itself. */
  lemma NormalizeNameIdempotent(value: Option<string>)
    ensures NormalizeName(Some(NormalizeName(value))) == NormalizeName(value)
  {
    NormalizeNameSpec(value);
    var r := NormalizeName(value);
    assert ToLower(r) == r;
    KeepLowerAlnumSpec(r);
    NormalizeNameSpec(Some(r));
  }

  /** Names that differ only in ASCII letter case get the same key. */
  lemma NormalizeNameIgnoresCase(value: string)
    ensures NormalizeName(Some(ToUpper(value))) == NormalizeName(Some(value))
    ensures NormalizeName(Some(ToLower(value))) == NormalizeName(Some(value))
  {
    LowerOfUpper(value);
    LowerIdempotent(value);
  }

  /** `cleanValue(value)`; `None` stands for any non-string. */
  function CleanValue(value: Option<string>): string {
    match value
    case None => ""
    case Some(v) =>
      var trimmed := Trim(v);
      if trimmed == "" || ToUpper(trimmed) == "NONE" || trimmed == "-" then "" else trimmed
  }

  /** A cleaned value is trimmed; it is empty for a non-string, a blank
      value, any letter-case spelling of `NONE` and `-`, and otherwise it is
      the trimmed value. */
  lemma CleanValueSpec(value: Option<string>)
    ensures var r := CleanValue(value);
      && IsTrimmed(r)
      && (value.None? ==> r == "")
      && (value.Some? ==>
            (r == "" <==> Trim(value.value) == "" || ToUpper(Trim(value.value)) == "NONE" || Trim(value.value) == "-"))
      && (r != "" ==> r == Trim(value.value))
  {
    if value.Some? {
      TrimSpec(value.value);
    }
  }

  /** Cleaning a cleaned value changes nothing. */
  lemma CleanValueIdempotent(value: Option<string>)
    ensures CleanValue(Some(CleanValue(value))) == CleanValue(value)
  {
    CleanValueSpec(value);
    var r := CleanValue(value);
    TrimSpec(r);
  }

  /** `toBoolean(value)`: the trimmed, lower-cased value is `yes` or `true`. */
  function ToBoolean(value: Option<string>): bool {
    match value
    case None => false
    case Some(v) =>
      var normalized := ToLower(Trim(v));
      normalized == "yes" || normalized == "true"
  }

  /** `w` spells the lower-case word `t` with each letter in either case. */
  predicate CaseVariantOf(w: string, t: string) {
    |w| == |t| && forall i :: 0 <= i < |w| ==> w[i] == t[i] || w[i] == UpperChar(t[i])
  }

  /** For a word of lower-case ASCII letters, lower-casing gives the word
      back exactly from its case variants. */
  lemma LowerIsCaseVariant(w: string, t: string)
    requires forall i :: 0 <= i < |t| ==> 'a' <= t[i] <= 'z'
    ensures ToLower(w) == t <==> CaseVariantOf(w, t)
  {
    if ToLower(w) == t {
      forall i | 0 <= i < |w| ensures w[i] == t[i] || w[i] == UpperChar(t[i]) {
        assert LowerChar(w[i]) == t[i];
      }
    }
    if CaseVariantOf(w, t) {
      forall i | 0 <= i < |w| ensures ToLower(w)[i] == t[i] {
        assert LowerChar(w[i]) == t[i];
      }
    }
  }

  /** A missing value is false. A value is the trimmed word `w` padded with
      white space, and it is true exactly when `w` is `yes` or `true` in any
      letter case. */
  lemma ToBooleanSpec(value: Option<string>, p: string, w: string, q: string)
    requires AllSpace(p) && AllSpace(q) && IsTrimmed(w)
    ensures value.None? ==> !ToBoolean(value)
    ensures value == Some(p + w + q) ==> (ToBoolean(value) <==> CaseVariantOf(w, "yes") || CaseVariantOf(w, "true"))
  {
    TrimPadded(p, w, q);
    LowerIsCaseVariant(w, "yes");
    LowerIsCaseVariant(w, "true");
  }

  /** `toBoolean` ignores ASCII letter case. */
  lemma ToBooleanIgnoresCase(v: string)
    ensures ToBoolean(Some(ToUpper(v))) == ToBoolean(Some(v))
  {
    TrimUpper(v);
    LowerOfUpper(Trim(v));
  }

  // ---------------------------------------------------------------------
  // loadCsvMap

  /** One value of the CSV map. */
  datatype CsvRecord = CsvRecord(
    name: string,
    logo: string,
    banner: string,
    projectType: string,
    tags: seq<string>,
    x: string,
    web: string,
    info: string,
    onlyOnMonad: bool,
    warning: string)

  const WarningHeader: string := "\U{1F7E5} = sus / website link broken / dead pjs"

  /** `row[index] ?? ''` */
  function CellAt(row: seq<string>, index: nat): string {
    if index < |row| then row[index] else ""
  }

  /** The object `headers.forEach((header, index) => entry[header] = ...)`
      builds: each header names the cell below it, a later duplicate header
      overriding an earlier one. */
  function RowEntry(headers: seq<string>, row: seq<string>): map<string, string>
    decreases |headers|
  {
    if headers == [] then map[]
    else
      var n := |headers| - 1;
      RowEntry(headers[..n], row)[headers[n] := CellAt(row, n)]
  }

  /** The entry has one key per distinct header, and a header's value is the
      cell under its last occurrence (empty past the end of the row). */
  lemma {:induction false} RowEntrySpec(headers: seq<string>, row: seq<string>, h: string)
    ensures h in RowEntry(headers, row) <==> h in headers
    ensures h in headers ==>
      exists k :: 0 <= k < |headers| && headers[k] == h
        && RowEntry(headers, row)[h] == CellAt(row, k)
        && forall k' :: k < k' < |headers| ==> headers[k'] != h
    decreases |headers|
  {
    if headers != [] {
      var n := |headers| - 1;
      RowEntrySpec(headers[..n], row, h);
      assert headers == headers[..n] + [headers[n]];
      if h != headers[n] && h in headers[..n] {
        var k :| 0 <= k < n && headers[..n][k] == h
          && RowEntry(headers[..n], row)[h] == CellAt(row, k)
          && forall k' :: k < k' < n ==> headers[..n][k'] != h;
        assert headers[k] == h;
      }
    }
  }

  /** `entry[key]`, `None` when the header is missing. */
  function Field(entry: map<string, string>, key: string): Option<string> {
    if key in entry then Some(entry[key]) else None
  }

  predicate AllBlank(row: seq<string>) {
    forall k :: 0 <= k < |row| ==> row[k] == ""
  }

  /** The record built from a row's header-to-cell map and its trimmed name. */
  function RecordOf(entry: map<string, string>, name: string): CsvRecord {
    CsvRecord(
      name,
      CleanValue(Field(entry, "LOGO")),
      CleanValue(Field(entry, "BANNER")),
      CleanValue(Field(entry, "PJ TYPE")),
      SplitTrimmed(CleanValue(Field(entry, "TAGS")), {',', '|'}),
      CleanValue(Field(entry, "X")),
      CleanValue(Field(entry, "WEB")),
      CleanValue(Field(entry, "INFO")),
      ToBoolean(Field(entry, "ONLY on Monad")),
      CleanValue(Field(entry, WarningHeader)))
  }

  /** The record a data row yields, or `None` when the loop skips it: a row
      with no cells or only empty cells, or one whose `NAME` is missing or
      blank. */
  function RowRecord(headers: seq<string>, row: seq<string>): Option<CsvRecord> {
    if |row| == 0 || AllBlank(row) then None
    else
      var entry := RowEntry(headers, row);
      if "NAME" !in entry then None
      else
        var name := Trim(entry["NAME"]);
        if name == "" then None
        else Some(RecordOf(entry, name))
  }

  /** A row is kept exactly when it has a cell that is not empty, a `NAME`
      column and a name that is not blank once trimmed; its record has that
      trimmed name, each text field the cleaned cell of its column, and as
      tags the non-empty trimmed pieces of the cleaned `TAGS` cell split at
      every `,` and `|` (`CsvTagsRoundTrip`). */
  lemma RowRecordSpec(headers: seq<string>, row: seq<string>)
    ensures var r := RowRecord(headers, row);
      r.Some? ==>
        && |row| > 0 && !AllBlank(row) && "NAME" in headers
        && r.value.name == Trim(RowEntry(headers, row)["NAME"])
        && r.value.name != "" && IsTrimmed(r.value.name)
        && IsTrimmed(r.value.logo) && IsTrimmed(r.value.banner) && IsTrimmed(r.value.projectType)
        && forall k :: 0 <= k < |r.value.tags| ==> r.value.tags[k] != "" && IsTrimmed(r.value.tags[k])
    ensures |row| == 0 || AllBlank(row) || "NAME" !in headers ==> RowRecord(headers, row).None?
    ensures |row| > 0 && !AllBlank(row) && "NAME" in RowEntry(headers, row) && Trim(RowEntry(headers, row)["NAME"]) != "" ==>
      RowRecord(headers, row).Some?
    ensures var r := RowRecord(headers, row); var entry := RowEntry(headers, row);
      r.Some? ==>
        && r.value.logo == CleanValue(Field(entry, "LOGO"))
        && r.value.banner == CleanValue(Field(entry, "BANNER"))
        && r.value.projectType == CleanValue(Field(entry, "PJ TYPE"))
        && r.value.x == CleanValue(Field(entry, "X"))
        && r.value.web == CleanValue(Field(entry, "WEB"))
        && r.value.info == CleanValue(Field(entry, "INFO"))
        && r.value.warning == CleanValue(Field(entry, WarningHeader))
        && r.value.onlyOnMonad == ToBoolean(Field(entry, "ONLY on Monad"))
        && r.value.tags == SplitTrimmed(CleanValue(Field(entry, "TAGS")), {',', '|'})
  {
    if |row| > 0 && !AllBlank(row) {
      var entry := RowEntry(headers, row);
      RowEntrySpec(headers, row, "NAME");
      if "NAME" in entry {
        TrimSpec(entry["NAME"]);
        CleanValueSpec(Field(entry, "LOGO"));
        CleanValueSpec(Field(entry, "BANNER"));
        CleanValueSpec(Field(entry, "PJ TYPE"));
      }
    }
  }

  /** A `TAGS` cell written as trimmed tags free of `,` and `|`, joined by
      either separator, gives those tags back — unless the whole cell is a
      spelling of `NONE` or `-`, which cleaning empties. */
  lemma CsvTagsRoundTrip(tags: seq<string>, c: char)
    requires |tags| >= 1 && c in {',', '|'}
    requires forall k :: 0 <= k < |tags| ==> tags[k] != "" && IsTrimmed(tags[k])
    requires forall k, j :: 0 <= k < |tags| && 0 <= j < |tags[k]| ==> tags[k][j] !in {',', '|'}
    requires ToUpper(Join(tags, [c])) != "NONE" && Join(tags, [c]) != "-"
    ensures SplitTrimmed(CleanValue(Some(Join(tags, [c]))), {',', '|'}) == tags
  {
    CleanJoined(tags, [c]);
    SplitTrimmedJoin(tags, c, {',', '|'});
  }

  /** Cleaning leaves a join of non-empty trimmed parts as it is, unless it
      is a spelling of `NONE` or `-`. */
  lemma CleanJoined(parts: seq<string>, sep: string)
    requires |parts| >= 1
    requires forall k :: 0 <= k < |parts| ==> parts[k] != "" && IsTrimmed(parts[k])
    requires ToUpper(Join(parts, sep)) != "NONE" && Join(parts, sep) != "-"
    ensures CleanValue(Some(Join(parts, sep))) == Join(parts, sep)
  {
    var cell := Join(parts, sep);
    JoinEnds(parts, sep);
    var last := parts[|parts| - 1];
    assert IsTrimmed(cell) by {
      assert cell[|cell| - 1] == last[|last| - 1];
    }
    TrimSpec(cell);
  }

  /** The records of the data rows `body`, `None` for a skipped row. */
  function RowRecords(headers: seq<string>, body: seq<seq<string>>): (recs: seq<Option<CsvRecord>>)
    ensures |recs| == |body|
  {
    seq(|body|, j requires 0 <= j < |body| => RowRecord(headers, body[j]))
  }

  /** The key a record is stored under, if the row yields one. */
  predicate HasKey(r: Option<CsvRecord>, key: string) {
    r.Some? && NormalizeName(Some(r.value.name)) == key
  }

  /** `map.set(key, record)` for each kept record, in order. */
  function MapOfRecords(recs: seq<Option<CsvRecord>>): map<string, CsvRecord>
    decreases |recs|
  {
    if recs == [] then map[]
    else
      var n := |recs| - 1;
      var m := MapOfRecords(recs[..n]);
      match recs[n]
      case None => m
      case Some(rec) => m[NormalizeName(Some(rec.name)) := rec]
  }

  /** The map after the data rows `body`, in order. */
  function CsvMapOf(headers: seq<string>, body: seq<seq<string>>): map<string, CsvRecord> {
    MapOfRecords(RowRecords(headers, body))
  }

  /** A key that no record has is not in the map. */
  lemma {:induction false} MapMissingKey(recs: seq<Option<CsvRecord>>, key: string)
    requires forall j :: 0 <= j < |recs| ==> !HasKey(recs[j], key)
    ensures key !in MapOfRecords(recs)
    decreases |recs|
  {
    if recs != [] {
      MapMissingKey(recs[..|recs| - 1], key);
    }
  }

  /** The record at `j` is the last one with `key`, so the map holds it
      there: a later `map.set` with the same key overwrites an earlier one. */
  lemma {:induction false} MapLastWins(recs: seq<Option<CsvRecord>>, key: string, j: nat)
    requires j < |recs| && HasKey(recs[j], key)
    requires forall j' :: j < j' < |recs| ==> !HasKey(recs[j'], key)
    ensures key in MapOfRecords(recs) && MapOfRecords(recs)[key] == recs[j].value
    decreases |recs|
  {
    var n := |recs| - 1;
    if j < n {
      MapLastWins(recs[..n], key, j);
    }
  }

  /** Every stored record has a non-empty name whose key it is stored under. */
  lemma {:induction false} MapKeys(recs: seq<Option<CsvRecord>>)
    requires forall j :: 0 <= j < |recs| && recs[j].Some? ==> recs[j].value.name != ""
    ensures forall key :: key in MapOfRecords(recs) ==>
      var rec := MapOfRecords(recs)[key];
      rec.name != "" && NormalizeName(Some(rec.name)) == key
    decreases |recs|
  {
    if recs != [] {
      MapKeys(recs[..|recs| - 1]);
    }
  }

  /** Every record of the CSV map has a non-empty name and sits under its own key. */
  lemma CsvMapKeys(headers: seq<string>, body: seq<seq<string>>)
    ensures forall key :: key in CsvMapOf(headers, body) ==>
      var rec := CsvMapOf(headers, body)[key];
      rec.name != "" && NormalizeName(Some(rec.name)) == key
  {
    var recs := RowRecords(headers, body);
    forall j | 0 <= j < |recs| && recs[j].Some?
      ensures recs[j].value.name != ""
    {
      RowRecordSpec(headers, body[j]);
    }
    MapKeys(recs);
  }

  /** `loadCsvMap()` over the parsed rows: the first row is the header row. */
  method LoadCsvMap(rows: seq<seq<string>>) returns (r: Result<map<string, CsvRecord>>)
    ensures rows == [] <==> r.Err?
    ensures rows == [] ==> r == Err("CSV file has no content")
    ensures rows != [] ==> r == Ok(CsvMapOf(rows[0], rows[1..]))
  {
    if |rows| == 0 {
      return Err("CSV file has no content");
    }
    var headers := rows[0];
    ghost var recs := RowRecords(headers, rows[1..]);
    var m: map<string, CsvRecord> := map[];
    var i := 1;
    while i < |rows|
      invariant 1 <= i <= |rows|
      invariant m == MapOfRecords(recs[..i - 1])
    {
      assert recs[..i][..i - 1] == recs[..i - 1];
      assert recs[i - 1] == RowRecord(headers, rows[i]);
      var rec := RowRecord(headers, rows[i]);
      if rec.Some? {
        m := m[NormalizeName(Some(rec.value.name)) := rec.value];
      }
      i := i + 1;
    }
    assert recs[..i - 1] == recs;
    return Ok(m);
  }

  // ---------------------------------------------------------------------
  // mergeData

  /** `entry.image`; other image fields are not modelled. */
  datatype Image = Image(logo: Option<string>, banner: Option<string>)

  /** `entry.csvMeta` as the merge writes it. */
  datatype CsvMeta = CsvMeta(tags: seq<string>, web: string, x: string, info: string, warning: string)

  /** The fields of a scraped ecosystem entry that the merge reads or writes;
      `None` stands for an absent field. */
  datatype EcoEntry = EcoEntry(
    name: Option<string>,
    image: Option<Image>,
    onlyOnMonad: Option<bool>,
    projectType: Option<string>,
    csvMeta: Option<CsvMeta>)

  datatype MergeStats = MergeStats(
    matched: nat,
    logoUpdates: nat,
    bannerUpdates: nat,
    statusUpdates: nat,
    totalCsvEntries: nat,
    totalJsonEntries: nat)

  /** A JavaScript-truthy optional string. */
  predicate Truthy(s: Option<string>) { s.Some? && s.value != "" }

  function ImageOf(e: EcoEntry): Image { e.image.GetOr(Image(None, None)) }

  /** The logo counter moves for this entry. */
  predicate LogoChanged(e: EcoEntry, rec: CsvRecord) {
    rec.logo != "" && ImageOf(e).logo != Some(rec.logo)
  }

  /** The banner counter moves for this entry. */
  predicate BannerChanged(e: EcoEntry, rec: CsvRecord) {
    rec.banner != "" && (!Truthy(ImageOf(e).banner) || ImageOf(e).banner != Some(rec.banner))
  }

  /** The `updated` copy of a matched entry. */
  function Enrich(e: EcoEntry, rec: CsvRecord): EcoEntry {
    var image := ImageOf(e);
    var logo := if LogoChanged(e, rec) then Some(rec.logo) else image.logo;
    var banner := if BannerChanged(e, rec) then Some(rec.banner) else image.banner;
    var projectType := if !Truthy(e.projectType) && rec.projectType != "" then Some(rec.projectType) else e.projectType;
    EcoEntry(e.name, Some(Image(logo, banner)), Some(rec.onlyOnMonad), projectType,
             Some(CsvMeta(rec.tags, rec.web, rec.x, rec.info, rec.warning)))
  }

  /** A matched entry keeps its name, takes the sheet's logo and banner when
      they are set, always takes its `onlyOnMonad` flag, fills a missing
      project type, and carries the sheet's metadata. */
  lemma EnrichSpec(e: EcoEntry, rec: CsvRecord)
    ensures var u := Enrich(e, rec);
      && u.name == e.name && u.onlyOnMonad == Some(rec.onlyOnMonad) && u.image.Some?
      && (rec.logo != "" ==> u.image.value.logo == Some(rec.logo))
      && (rec.logo == "" ==> u.image.value.logo == ImageOf(e).logo)
      && (rec.banner != "" ==> u.image.value.banner == Some(rec.banner))
      && (rec.banner == "" ==> u.image.value.banner == ImageOf(e).banner)
      && (Truthy(e.projectType) ==> u.projectType == e.projectType)
      && (!Truthy(e.projectType) && rec.projectType != "" ==> u.projectType == Some(rec.projectType))
      && (!Truthy(e.projectType) && rec.projectType == "" ==> u.projectType == e.projectType)
      && u.csvMeta == Some(CsvMeta(rec.tags, rec.web, rec.x, rec.info, rec.warning))
  {
  }

  /** The merged form of one entry: unchanged when its key is not in the map. */
  function MergedEntry(e: EcoEntry, csvMap: map<string, CsvRecord>): EcoEntry {
    var key := NormalizeName(e.name);
    if key in csvMap then Enrich(e, csvMap[key]) else e
  }

  /** Merging twice is merging once, and the second merge moves neither the
      logo nor the banner counter. */
  lemma MergeIdempotent(e: EcoEntry, csvMap: map<string, CsvRecord>)
    ensures MergedEntry(MergedEntry(e, csvMap), csvMap) == MergedEntry(e, csvMap)
    ensures var key := NormalizeName(e.name);
      key in csvMap ==> !LogoChanged(MergedEntry(e, csvMap), csvMap[key]) && !BannerChanged(MergedEntry(e, csvMap), csvMap[key])
  {
  }

  function Matched(e: EcoEntry, csvMap: map<string, CsvRecord>): bool {
    NormalizeName(e.name) in csvMap
  }

  /** How many of `entries` match, and move the logo and banner counters. */
  function CountMatched(entries: seq<EcoEntry>, csvMap: map<string, CsvRecord>): nat
    decreases |entries|
  {
    if entries == [] then 0
    else
      var n := |entries| - 1;
      CountMatched(entries[..n], csvMap) + if Matched(entries[n], csvMap) then 1 else 0
  }

  function CountLogo(entries: seq<EcoEntry>, csvMap: map<string, CsvRecord>): nat
    decreases |entries|
  {
    if entries == [] then 0
    else
      var n := |entries| - 1;
      var e := entries[n];
      CountLogo(entries[..n], csvMap) + if Matched(e, csvMap) && LogoChanged(e, csvMap[NormalizeName(e.name)]) then 1 else 0
  }

  function CountBanner(entries: seq<EcoEntry>, csvMap: map<string, CsvRecord>): nat
    decreases |entries|
  {
    if entries == [] then 0
    else
      var n := |entries| - 1;
      var e := entries[n];
      CountBanner(entries[..n], csvMap) + if Matched(e, csvMap) && BannerChanged(e, csvMap[NormalizeName(e.name)]) then 1 else 0
  }

  /** Only matched entries move the logo and banner counters. */
  lemma {:induction false} UpdatesAtMostMatched(entries: seq<EcoEntry>, csvMap: map<string, CsvRecord>)
    ensures CountLogo(entries, csvMap) <= CountMatched(entries, csvMap)
    ensures CountBanner(entries, csvMap) <= CountMatched(entries, csvMap)
    ensures CountMatched(entries, csvMap) <= |entries|
    decreases |entries|
  {
    if entries != [] {
      UpdatesAtMostMatched(entries[..|entries| - 1], csvMap);
    }
  }

  /** The `ecosystem.data.map(...)` of `mergeData` with its counters. */
  method MergeData(entries: seq<EcoEntry>, csvMap: map<string, CsvRecord>)
    returns (enriched: seq<EcoEntry>, stats: MergeStats)
    ensures |enriched| == |entries|
    ensures forall i :: 0 <= i < |entries| ==> enriched[i] == MergedEntry(entries[i], csvMap)
    ensures forall i :: 0 <= i < |entries| && !Matched(entries[i], csvMap) ==> enriched[i] == entries[i]
    ensures stats.matched == CountMatched(entries, csvMap) && stats.statusUpdates == stats.matched
    ensures stats.logoUpdates == CountLogo(entries, csvMap) && stats.bannerUpdates == CountBanner(entries, csvMap)
    ensures stats.logoUpdates <= stats.matched && stats.bannerUpdates <= stats.matched
    ensures stats.totalCsvEntries == |csvMap| && stats.totalJsonEntries == |entries|
  {
    var matched, logoUpdates, bannerUpdates, statusUpdates := 0, 0, 0, 0;
    enriched := [];
    var i := 0;
    while i < |entries|
      invariant 0 <= i <= |entries|
      invariant |enriched| == i
      invariant forall k :: 0 <= k < i ==> enriched[k] == MergedEntry(entries[k], csvMap)
      invariant matched == CountMatched(entries[..i], csvMap) && statusUpdates == matched
      invariant logoUpdates == CountLogo(entries[..i], csvMap)
      invariant bannerUpdates == CountBanner(entries[..i], csvMap)
    {
      var entry := entries[i];
      assert entries[..i + 1][..i] == entries[..i];
      var key := NormalizeName(entry.name);
      if key !in csvMap {
        enriched := enriched + [entry];
      } else {
        var rec := csvMap[key];
        matched := matched + 1;
        if LogoChanged(entry, rec) {
          logoUpdates := logoUpdates + 1;
        }
        if BannerChanged(entry, rec) {
          bannerUpdates := bannerUpdates + 1;
        }
        statusUpdates := statusUpdates + 1;
        enriched := enriched + [Enrich(entry, rec)];
      }
      i := i + 1;
    }
    assert entries[..i] == entries;
    UpdatesAtMostMatched(entries, csvMap);
    stats := MergeStats(matched, logoUpdates, bannerUpdates, statusUpdates, |csvMap|, |entries|);
  }
}
