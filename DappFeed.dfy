/** The client-side dapp feed (`src/hooks/useDappData.jsx`): every CSV row
    the browser parses is normalised into a feed item, items without a name
    or an id are dropped, and the feed is grouped by category and ranked by
    TVL for the "trending" strip. */
module DappFeed {
  import opened Common
  import opened Strings
  import Catalogue
  import CsvMerge

  /** A parsed CSV row: header -> cell. A column the row does not have is
      simply absent, which is JavaScript's `undefined`. */
  type Row = map<string, string>

  // ---------------------------------------------------------------------
  // reading a row

  /** `row[k0] ?? row[k1] ?? …`: the cell under the first key the row has. */
  function FirstOf(row: Row, keys: seq<string>): (r: Option<string>)
    ensures r.None? <==> forall k :: 0 <= k < |keys| ==> keys[k] !in row
  {
    if keys == [] then None
    else if keys[0] in row then Some(row[keys[0]])
    else FirstOf(row, keys[1..])
  }

  /** The first key present decides, whatever the later keys hold. */
  lemma {:induction false} FirstOfAt(row: Row, keys: seq<string>, j: nat)
    requires j < |keys| && keys[j] in row
    requires forall k :: 0 <= k < j ==> keys[k] !in row
    ensures FirstOf(row, keys) == Some(row[keys[j]])
  {
    if j > 0 {
      FirstOfAt(row, keys[1..], j - 1);
    }
  }

  /** `row[k0] || row[k1] || …`: the first non-empty cell among the keys. */
  function FirstTruthy(row: Row, keys: seq<string>): (r: Option<string>)
    ensures r.Some? ==> r.value != "" && r.value in row.Values
    ensures r.None? <==> forall k :: 0 <= k < |keys| ==> keys[k] !in row || row[keys[k]] == ""
  {
    if keys == [] then None
    else if keys[0] in row && row[keys[0]] != "" then Some(row[keys[0]])
    else FirstTruthy(row, keys[1..])
  }

  const NameKeys: seq<string> := ["name", "NAME", "Name"]
  const CategoryKeys: seq<string> := ["category", "PJ TYPE", "Category"]
  const SubCategoryKeys: seq<string> := ["subCategory", "TAGS", "SubCategory"]
  const DescriptionKeys: seq<string> := ["description", "INFO", "Info"]
  const WebsiteKeys: seq<string> := ["website", "WEB", "Web"]
  const TwitterKeys: seq<string> := ["twitter", "X", "Twitter"]
  const StatusKeys: seq<string> := ["status", "Status"]
  const WarningKeys: seq<string> := [CsvMerge.WarningHeader, "\U{1F7E5}"]
  const LogoKeys: seq<string> := ["logo", "LOGO", "Logo"]
  const TvlKeys: seq<string> := ["tvlUsd", "tvl"]
  const UsersKeys: seq<string> := ["users24h", "users"]

  const FallbackDescription: string := "Khám phá dự án Monad – chi tiết đang cập nhật."
  const UnnamedDapp: string := "Unnamed dapp"

  // ---------------------------------------------------------------------
  // normaliseRow

  /** One feed item. The original row the source keeps under `raw` is not
      part of this model. */
  datatype FeedItem = FeedItem(
    id: Option<string>,
    name: string,
    category: string,
    subCategory: string,
    description: string,
    website: string,
    twitter: string,
    tvlUsd: real,
    users24h: real,
    status: string,
    logo: string,
    tags: seq<string>)

  /** The status label: a warning that mentions "sus" or "dead" wins, then
      an explicit status, then "exclusive" for Monad-only projects, else
      "live". */
  function StatusOf(warning: string, statusRaw: string, onlyMonad: string): string {
    if Contains(warning, "sus") || Contains(warning, "dead") then "sus"
    else if statusRaw != "" then statusRaw
    else if onlyMonad == "yes" then "exclusive"
    else "live"
  }

  /** The item id: the row's own non-empty `id`, otherwise the lower-cased
      `name-category` with every run of other characters turned into `-`
      (only when the trimmed name is non-empty). */
  function IdOf(row: Row, name: Option<string>, category: string): Option<string> {
    if "id" in row && row["id"] != "" then Some(row["id"])
    else if name.Some? && name.value != "" then
      Some(Catalogue.DashRuns(ToLower(name.value + "-" + category)))
    else None
  }

  /** `Number(…)` over a cell that is present and non-empty; the
      conversion itself is the parameter `toNumber`. */
  function NumberOf(cell: Option<string>, toNumber: string -> real): real {
    match cell
    case None => 0.0
    case Some(s) => toNumber(s)
  }

  /** `(row.name ?? row.NAME ?? row.Name)?.trim()` */
  function NameOf(row: Row): Option<string> {
    var rawName := FirstOf(row, NameKeys);
    if rawName.Some? then Some(Trim(rawName.value)) else None
  }

  /** `(row.category ?? row['PJ TYPE'] ?? row.Category ?? 'Other').trim()` */
  function CategoryOf(row: Row): string {
    Trim(FirstOf(row, CategoryKeys).GetOr("Other"))
  }

  /** `(row.subCategory ?? row.TAGS ?? row.SubCategory ?? '').trim()` */
  function SubCategoryOf(row: Row): string {
    Trim(FirstOf(row, SubCategoryKeys).GetOr(""))
  }

  /** `subCategory ? subCategory.split(',').map(trim).filter(Boolean) : []` */
  function TagsOf(subCategory: string): seq<string> {
    if subCategory != "" then SplitTrimmed(subCategory, {','}) else []
  }

  /** The status of a row, from its warning, status and "ONLY on Monad"
      cells. */
  function RowStatus(row: Row): string {
    var onlyMonad := ToLower(Trim(FirstOf(row, ["ONLY on Monad"]).GetOr("")));
    var statusRaw := ToLower(Trim(FirstOf(row, StatusKeys).GetOr("")));
    var warning := ToLower(FirstOf(row, WarningKeys).GetOr(""));
    StatusOf(warning, statusRaw, onlyMonad)
  }

  /** `normaliseRow(row)` */
  function NormaliseRow(row: Row, toNumber: string -> real): FeedItem {
    var name := NameOf(row);
    var category := CategoryOf(row);
    var subCategory := SubCategoryOf(row);
    FeedItem(
      id := IdOf(row, name, category),
      name := name.GetOr(UnnamedDapp),
      category := category,
      subCategory := subCategory,
      description := FirstOf(row, DescriptionKeys).GetOr(FallbackDescription),
      website := Trim(FirstOf(row, WebsiteKeys).GetOr("")),
      twitter := Trim(FirstOf(row, TwitterKeys).GetOr("")),
      tvlUsd := NumberOf(FirstTruthy(row, TvlKeys), toNumber),
      users24h := NumberOf(FirstTruthy(row, UsersKeys), toNumber),
      status := RowStatus(row),
      logo := FirstOf(row, LogoKeys).GetOr(""),
      tags := TagsOf(subCategory))
  }

  /** The name is trimmed, and is "Unnamed dapp" exactly when the row has
      no name column at all (a blank name stays blank). */
  lemma NameSpec(row: Row)
    ensures var name := NameOf(row).GetOr(UnnamedDapp);
      && IsTrimmed(name)
      && (NameOf(row).None? <==> forall k :: 0 <= k < |NameKeys| ==> NameKeys[k] !in row)
      && (NameOf(row).None? ==> name == UnnamedDapp)
  {
    var rawName := FirstOf(row, NameKeys);
    if rawName.Some? {
      TrimSpec(rawName.value);
    } else {
      TrimSpec(UnnamedDapp);
    }
  }

  /** The category is trimmed and is "Other" when the row has no category
      column. */
  lemma CategorySpec(row: Row)
    ensures IsTrimmed(CategoryOf(row))
    ensures (forall k :: 0 <= k < |CategoryKeys| ==> CategoryKeys[k] !in row) ==> CategoryOf(row) == "Other"
  {
    TrimSpec(FirstOf(row, CategoryKeys).GetOr("Other"));
  }

  /** Tags are non-empty and trimmed, and a blank sub-category has none;
      tags written with `,` between them come back as written. */
  lemma TagsSpec(subCategory: string, tags: seq<string>)
    ensures forall k :: 0 <= k < |TagsOf(subCategory)| ==> TagsOf(subCategory)[k] != "" && IsTrimmed(TagsOf(subCategory)[k])
    ensures subCategory == "" ==> TagsOf(subCategory) == []
    ensures |tags| >= 1 && (forall k :: 0 <= k < |tags| ==> tags[k] != "" && IsTrimmed(tags[k]))
      && (forall k, j :: 0 <= k < |tags| && 0 <= j < |tags[k]| ==> tags[k][j] != ',')
      ==> TagsOf(Join(tags, ",")) == tags
  {
    if |tags| >= 1 && (forall k :: 0 <= k < |tags| ==> tags[k] != "" && IsTrimmed(tags[k]))
      && (forall k, j :: 0 <= k < |tags| && 0 <= j < |tags[k]| ==> tags[k][j] != ',') {
      SplitTrimmedJoin(tags, ',', {','});
      if |tags| > 1 {
        assert Join(tags, ",") == tags[0] + "," + Join(tags[1..], ",");
      }
    }
  }

  /** The status label is never empty; a warning cell (lower-cased) that
      mentions "sus" or "dead" forces "sus"; otherwise an explicit status
      is kept as written (trimmed and lower-cased); "exclusive" and "live"
      only fill in a missing status. */
  lemma StatusSpec(warning: string, statusRaw: string, onlyMonad: string)
    ensures var r := StatusOf(warning, statusRaw, onlyMonad);
      && r != ""
      && (Contains(warning, "sus") || Contains(warning, "dead") ==> r == "sus")
      && (!Contains(warning, "sus") && !Contains(warning, "dead") && statusRaw != "" ==> r == statusRaw)
      && (!Contains(warning, "sus") && !Contains(warning, "dead") && statusRaw == "" ==>
            (r == "exclusive" <==> onlyMonad == "yes") && (r == "live" <==> onlyMonad != "yes"))
  {
  }

  /** A generated id is made of `[a-z0-9-]` with no `--`. */
  predicate IsDerivedId(id: string) {
    id != [] && (forall i :: 0 <= i < |id| ==> Catalogue.SlugChar(id[i])) && Catalogue.NoDoubleDash(id)
  }

  /** The row's own id wins; otherwise an id exists exactly when the
      trimmed name is non-empty, and it is a derived id: the runs of
      `[a-z0-9]` characters of the lower-cased `name-category`, joined by
      single dashes, with one dash for a run of other characters at either
      end; an item never gets an empty id. */
  lemma IdSpec(row: Row, name: Option<string>, category: string)
    ensures var r := IdOf(row, name, category);
      && ("id" in row && row["id"] != "" ==> r == Some(row["id"]))
      && (r.None? <==> !("id" in row && row["id"] != "") && (name.None? || name.value == ""))
      && (r.Some? ==> r.value != "")
      && (r.Some? && !("id" in row && row["id"] != "") ==> IsDerivedId(r.value))
      && (r.Some? && !("id" in row && row["id"] != "") ==>
            && name.Some?
            && var l := ToLower(name.value + "-" + category);
               r.value == (if l != [] && !IsLowerAlnum(l[0]) then "-" else "")
                 + Join(Catalogue.AlnumRuns(l), "-")
                 + (if Catalogue.AlnumRuns(l) != [] && Catalogue.EndsInOther(l) then "-" else ""))
  {
    if !("id" in row && row["id"] != "") && name.Some? && name.value != "" {
      Catalogue.DashRunsSpec(ToLower(name.value + "-" + category));
      Catalogue.DashRunsJoin(ToLower(name.value + "-" + category));
    }
  }

  // ---------------------------------------------------------------------
  // loading: map + filter

  /** `item?.name && item?.id` */
  predicate Kept(item: FeedItem) {
    item.name != "" && item.id.Some? && item.id.value != ""
  }

  /** A row survives the load filter exactly when it has no name column but
      a non-empty `id` (it is then "Unnamed dapp"), or when its trimmed
      name is non-empty. */
  lemma RowKept(row: Row, toNumber: string -> real)
    ensures var rawName := FirstOf(row, NameKeys);
      Kept(NormaliseRow(row, toNumber)) <==>
        (rawName.None? && "id" in row && row["id"] != "") || (rawName.Some? && Trim(rawName.value) != "")
  {
    IdSpec(row, NameOf(row), CategoryOf(row));
  }

  /** `items.filter((item) => item?.name && item?.id)` */
  function Keep(items: seq<FeedItem>): (r: seq<FeedItem>)
    ensures |r| <= |items|
  {
    if items == [] then []
    else Keep(items[..|items| - 1]) + (if Kept(items[|items| - 1]) then [items[|items| - 1]] else [])
  }

  /** The filter keeps exactly the items that pass, in order. */
  lemma {:induction false} KeepSpec(items: seq<FeedItem>)
    ensures forall x :: x in Keep(items) <==> x in items && Kept(x)
  {
    if items != [] {
      KeepSpec(items[..|items| - 1]);
      assert items == items[..|items| - 1] + [items[|items| - 1]];
    }
  }

  /** The filter distributes over concatenation, so the order of the
      surviving items is the input order. */
  lemma {:induction false} KeepAppend(a: seq<FeedItem>, b: seq<FeedItem>)
    ensures Keep(a + b) == Keep(a) + Keep(b)
    decreases |b|
  {
    if b == [] {
      assert a + b == a;
    } else {
      var b' := b[..|b| - 1];
      assert (a + b)[..|a + b| - 1] == a + b';
      KeepAppend(a, b');
    }
  }

  /** The feed the provider publishes as `dapps`. */
  function Load(rows: seq<Row>, toNumber: string -> real): seq<FeedItem> {
    Keep(Normalised(rows, toNumber))
  }

  /** `rows.map(normaliseRow)` */
  function Normalised(rows: seq<Row>, toNumber: string -> real): (r: seq<FeedItem>)
    ensures |r| == |rows|
  {
    seq(|rows|, i requires 0 <= i < |rows| => NormaliseRow(rows[i], toNumber))
  }

  /** The published items are exactly the normalised rows that have a name
      and an id; there are never more of them than rows. */
  lemma LoadSpec(rows: seq<Row>, toNumber: string -> real)
    ensures |Load(rows, toNumber)| <= |rows|
    ensures forall x :: x in Load(rows, toNumber) <==> x in Normalised(rows, toNumber) && Kept(x)
  {
    KeepSpec(Normalised(rows, toNumber));
  }

  // ---------------------------------------------------------------------
  // categories

  /** One entry of the category list: `{ id: key, name: key, items }`
      (the id and the name are both the key). */
  datatype Group = Group(key: string, items: seq<FeedItem>)

  /** `dapp.category || 'Other'` */
  function KeyOf(dapp: FeedItem): (r: string)
    ensures r != ""
  {
    if dapp.category != "" then dapp.category else "Other"
  }

  /** `map.get(key)`: the position of the group with this key, if any. */
  function KeyIndex(groups: seq<Group>, key: string): (r: Option<nat>)
    ensures r.Some? ==>
      (r.value < |groups| && groups[r.value].key == key && forall j :: 0 <= j < r.value ==> groups[j].key != key)
    ensures r.None? ==> forall j :: 0 <= j < |groups| ==> groups[j].key != key
  {
    if groups == [] then None
    else if groups[0].key == key then Some(0)
    else match KeyIndex(groups[1..], key)
      case None => None
      case Some(i) => Some(i + 1)
  }

  /** One turn of `dapps.forEach`: append the dapp to its group, creating
      the group at the end when the key is new (a `Map` keeps insertion
      order). */
  function GroupStep(groups: seq<Group>, dapp: FeedItem): seq<Group> {
    var key := KeyOf(dapp);
    match KeyIndex(groups, key)
    case Some(i) => groups[i := Group(key, groups[i].items + [dapp])]
    case None => groups + [Group(key, [dapp])]
  }

  /** `Array.from(map.values())` after the whole loop. */
  function Grouped(dapps: seq<FeedItem>): seq<Group> {
    if dapps == [] then [] else GroupStep(Grouped(dapps[..|dapps| - 1]), dapps[|dapps| - 1])
  }

  /** The dapps under `key`, in input order. */
  function WithKey(dapps: seq<FeedItem>, key: string): seq<FeedItem> {
    if dapps == [] then []
    else WithKey(dapps[..|dapps| - 1], key) + (if KeyOf(dapps[|dapps| - 1]) == key then [dapps[|dapps| - 1]] else [])
  }

  /** The keys in order of first appearance: the reference for the order
      of the groups. */
  function DistinctKeys(dapps: seq<FeedItem>): seq<string> {
    if dapps == [] then []
    else
      var keys := DistinctKeys(dapps[..|dapps| - 1]);
      var key := KeyOf(dapps[|dapps| - 1]);
      if key in keys then keys else keys + [key]
  }

  /** Each key once, and exactly the keys some dapp has. */
  lemma {:induction false} DistinctKeysSpec(dapps: seq<FeedItem>)
    ensures NoDup(DistinctKeys(dapps))
    ensures forall key :: key in DistinctKeys(dapps) <==> exists i :: 0 <= i < |dapps| && KeyOf(dapps[i]) == key
  {
    if dapps != [] {
      var init := dapps[..|dapps| - 1];
      DistinctKeysSpec(init);
      forall key ensures key in DistinctKeys(dapps) <==> exists i :: 0 <= i < |dapps| && KeyOf(dapps[i]) == key {
        if key in DistinctKeys(init) {
          var i :| 0 <= i < |init| && KeyOf(init[i]) == key;
          assert dapps[i] == init[i];
        }
        if exists i :: 0 <= i < |dapps| && KeyOf(dapps[i]) == key {
          var i :| 0 <= i < |dapps| && KeyOf(dapps[i]) == key;
          if i < |init| {
            assert init[i] == dapps[i];
          }
        }
      }
      var keys := DistinctKeys(init);
      var key := KeyOf(dapps[|dapps| - 1]);
      if key !in keys {
        NoDupAppend(keys, key);
      }
    }
  }

  /** A key no dapp has collects nothing. */
  lemma {:induction false} WithKeyAbsent(dapps: seq<FeedItem>, key: string)
    requires key !in DistinctKeys(dapps)
    ensures WithKey(dapps, key) == []
  {
    if dapps != [] {
      WithKeyAbsent(dapps[..|dapps| - 1], key);
    }
  }

  /** The keys of a list of groups, in order. */
  function Keys(groups: seq<Group>): (r: seq<string>)
    ensures |r| == |groups|
  {
    seq(|groups|, i requires 0 <= i < |groups| => groups[i].key)
  }

  /** What the grouping promises: the groups' keys are the distinct keys
      in order of first appearance, and each group holds exactly the dapps
      under its key, in input order. */
  predicate GroupsOf(dapps: seq<FeedItem>, groups: seq<Group>) {
    && Keys(groups) == DistinctKeys(dapps)
    && forall i :: 0 <= i < |groups| ==> groups[i].items == WithKey(dapps, groups[i].key)
  }

  lemma WithKeyAppend(dapps: seq<FeedItem>, x: FeedItem, key: string)
    ensures WithKey(dapps + [x], key) == WithKey(dapps, key) + (if KeyOf(x) == key then [x] else [])
  {
    assert (dapps + [x])[..|dapps|] == dapps;
  }

  /** Appending a dapp whose key already has a group extends that group. */
  lemma GroupStepFound(dapps: seq<FeedItem>, groups: seq<Group>, x: FeedItem, n: nat)
    requires GroupsOf(dapps, groups)
    requires n < |groups| && groups[n].key == KeyOf(x)
    ensures GroupsOf(dapps + [x], groups[n := Group(KeyOf(x), groups[n].items + [x])])
  {
    var d := dapps + [x];
    var g' := groups[n := Group(KeyOf(x), groups[n].items + [x])];
    DistinctKeysSpec(dapps);
    assert d[..|d| - 1] == dapps;
    assert Keys(groups)[n] == KeyOf(x);
    assert Keys(g') == Keys(groups);
    forall i | 0 <= i < |g'| ensures g'[i].items == WithKey(d, g'[i].key) {
      WithKeyAppend(dapps, x, g'[i].key);
      if i != n {
        assert Keys(groups)[i] != Keys(groups)[n];
      }
    }
  }

  /** Appending a dapp with a new key adds its group at the end. */
  lemma GroupStepNew(dapps: seq<FeedItem>, groups: seq<Group>, x: FeedItem)
    requires GroupsOf(dapps, groups)
    requires forall j :: 0 <= j < |groups| ==> groups[j].key != KeyOf(x)
    ensures GroupsOf(dapps + [x], groups + [Group(KeyOf(x), [x])])
  {
    var d := dapps + [x];
    var key := KeyOf(x);
    var g' := groups + [Group(key, [x])];
    assert d[..|d| - 1] == dapps;
    assert key !in Keys(groups);
    WithKeyAbsent(dapps, key);
    assert Keys(g') == Keys(groups) + [key];
    forall i | 0 <= i < |g'| ensures g'[i].items == WithKey(d, g'[i].key) {
      WithKeyAppend(dapps, x, g'[i].key);
      if i < |groups| {
        assert g'[i] == groups[i];
      }
    }
  }

  /** One grouping step keeps `GroupsOf` for the longer feed. */
  lemma GroupStepKeeps(dapps: seq<FeedItem>, groups: seq<Group>, x: FeedItem)
    requires GroupsOf(dapps, groups)
    ensures GroupsOf(dapps + [x], GroupStep(groups, x))
  {
    match KeyIndex(groups, KeyOf(x))
    case Some(n) => GroupStepFound(dapps, groups, x, n);
    case None => GroupStepNew(dapps, groups, x);
  }

  /** The grouping of any feed meets `GroupsOf`. */
  lemma {:induction false} GroupedSpec(dapps: seq<FeedItem>)
    ensures GroupsOf(dapps, Grouped(dapps))
  {
    if dapps != [] {
      var init := dapps[..|dapps| - 1];
      GroupedSpec(init);
      GroupStepKeeps(init, Grouped(init), dapps[|dapps| - 1]);
      assert init + [dapps[|dapps| - 1]] == dapps;
    }
  }

  /** The total number of items over all groups. */
  function TotalItems(groups: seq<Group>): nat {
    if groups == [] then 0 else TotalItems(groups[..|groups| - 1]) + |groups[|groups| - 1].items|
  }

  lemma {:induction false} TotalItemsUpdate(groups: seq<Group>, n: nat, g: Group)
    requires n < |groups|
    ensures TotalItems(groups[n := g]) == TotalItems(groups) - |groups[n].items| + |g.items|
  {
    var u := groups[n := g];
    if n < |groups| - 1 {
      assert u[..|u| - 1] == groups[..|groups| - 1][n := g];
      TotalItemsUpdate(groups[..|groups| - 1], n, g);
    } else {
      assert u[..|u| - 1] == groups[..|groups| - 1];
    }
  }

  /** Every dapp lands in exactly one group: the group sizes add up to the
      feed's length. */
  lemma {:induction false} GroupedPartition(dapps: seq<FeedItem>)
    ensures TotalItems(Grouped(dapps)) == |dapps|
  {
    if dapps != [] {
      var init := dapps[..|dapps| - 1];
      var x := dapps[|dapps| - 1];
      GroupedPartition(init);
      var groups := Grouped(init);
      match KeyIndex(groups, KeyOf(x))
      case Some(n) =>
        TotalItemsUpdate(groups, n, Group(KeyOf(x), groups[n].items + [x]));
      case None =>
        var g' := groups + [Group(KeyOf(x), [x])];
        assert g'[..|g'| - 1] == groups;
    }
  }

  /** The `categories` memo: the loop over the feed, updating the groups
      one dapp at a time. */
  method GroupByCategory(dapps: seq<FeedItem>) returns (groups: seq<Group>)
    ensures groups == Grouped(dapps)
    ensures GroupsOf(dapps, groups)
    ensures TotalItems(groups) == |dapps|
  {
    groups := [];
    var i := 0;
    while i < |dapps|
      invariant 0 <= i <= |dapps|
      invariant groups == Grouped(dapps[..i])
    {
      assert dapps[..i + 1][..i] == dapps[..i];
      var key := KeyOf(dapps[i]);
      var found := KeyIndex(groups, key);
      if found.Some? {
        var n := found.value;
        groups := groups[n := Group(key, groups[n].items + [dapps[i]])];
      } else {
        groups := groups + [Group(key, [dapps[i]])];
      }
      i := i + 1;
    }
    assert dapps[..i] == dapps;
    GroupedSpec(dapps);
    GroupedPartition(dapps);
  }

  // ---------------------------------------------------------------------
  // trending

  /** `(dapp.tvlUsd || 0)`; a `NaN` conversion is already 0 here. */
  function Tvl(dapp: FeedItem): real { dapp.tvlUsd }

  /** Non-increasing TVL. */
  predicate ByTvl(s: seq<FeedItem>) {
    forall i, j :: 0 <= i < j < |s| ==> Tvl(s[i]) >= Tvl(s[j])
  }

  /** Insert `x` before the first element whose TVL is not above its own,
      so that, of equal TVLs, the earlier dapp stays first. */
  function InsertByTvl(x: FeedItem, s: seq<FeedItem>): (r: seq<FeedItem>)
    ensures |r| == |s| + 1
  {
    if s == [] || Tvl(s[0]) <= Tvl(x) then [x] + s
    else [s[0]] + InsertByTvl(x, s[1..])
  }

  /** The stable sort by `(b.tvlUsd || 0) - (a.tvlUsd || 0)`. */
  function SortByTvl(dapps: seq<FeedItem>): (r: seq<FeedItem>)
    ensures |r| == |dapps|
  {
    if dapps == [] then [] else InsertByTvl(dapps[0], SortByTvl(dapps[1..]))
  }

  lemma {:induction false} InsertByTvlPerm(x: FeedItem, s: seq<FeedItem>)
    ensures multiset(InsertByTvl(x, s)) == multiset(s) + multiset{x}
  {
    if s != [] && Tvl(s[0]) > Tvl(x) {
      InsertByTvlPerm(x, s[1..]);
      assert s == [s[0]] + s[1..];
    }
  }

  lemma {:induction false} InsertByTvlBound(x: FeedItem, s: seq<FeedItem>, b: real)
    requires Tvl(x) <= b && forall j :: 0 <= j < |s| ==> Tvl(s[j]) <= b
    ensures forall j :: 0 <= j < |InsertByTvl(x, s)| ==> Tvl(InsertByTvl(x, s)[j]) <= b
  {
    if s != [] && Tvl(s[0]) > Tvl(x) {
      InsertByTvlBound(x, s[1..], b);
      var t := InsertByTvl(x, s[1..]);
      assert forall j :: 1 <= j < |t| + 1 ==> InsertByTvl(x, s)[j] == t[j - 1];
    }
  }

  lemma {:induction false} InsertByTvlSorted(x: FeedItem, s: seq<FeedItem>)
    requires ByTvl(s)
    ensures ByTvl(InsertByTvl(x, s))
  {
    if s != [] && Tvl(s[0]) > Tvl(x) {
      var t := InsertByTvl(x, s[1..]);
      InsertByTvlSorted(x, s[1..]);
      InsertByTvlBound(x, s[1..], Tvl(s[0]));
      var r := [s[0]] + t;
      assert forall j :: 1 <= j < |r| ==> r[j] == t[j - 1];
    }
  }

  lemma {:induction false} SortByTvlSpec(dapps: seq<FeedItem>)
    ensures multiset(SortByTvl(dapps)) == multiset(dapps)
    ensures ByTvl(SortByTvl(dapps))
  {
    if dapps != [] {
      SortByTvlSpec(dapps[1..]);
      InsertByTvlPerm(dapps[0], SortByTvl(dapps[1..]));
      InsertByTvlSorted(dapps[0], SortByTvl(dapps[1..]));
      assert dapps == [dapps[0]] + dapps[1..];
    }
  }
  /** The trending strip: the five highest TVLs. */
  const TrendingSize: nat := 5

  /** `[...dapps].sort(…).slice(0, 5)` */
  function Trending(dapps: seq<FeedItem>): seq<FeedItem> {
    var sorted := SortByTvl(dapps);
    if |dapps| <= TrendingSize then sorted else sorted[..TrendingSize]
  }

  /** Five items (or all of them when fewer), by non-increasing TVL, all
      taken from the feed. */
  lemma TrendingSpec(dapps: seq<FeedItem>)
    ensures var r := Trending(dapps);
      && |r| == (if |dapps| <= TrendingSize then |dapps| else TrendingSize)
      && ByTvl(r)
      && multiset(r) <= multiset(dapps)
  {
    var sorted := SortByTvl(dapps);
    SortByTvlSpec(dapps);
    var r := Trending(dapps);
    assert sorted == r + sorted[|r|..];
  }

  lemma MultisetRest<T>(a: seq<T>, b: seq<T>)
    ensures multiset(a + b) - multiset(a) == multiset(b)
  {
  }

  /** In a list by non-increasing TVL, everything after position `k` is at
      most everything before it. */
  lemma SortedSplit(s: seq<FeedItem>, k: nat)
    requires ByTvl(s) && k <= |s|
    ensures forall y, i :: y in s[k..] && 0 <= i < k ==> Tvl(y) <= Tvl(s[i])
  {
    forall y, i | y in s[k..] && 0 <= i < k ensures Tvl(y) <= Tvl(s[i]) {
      var j :| 0 <= j < |s[k..]| && s[k..][j] == y;
      assert s[k + j] == y;
    }
  }

  /** No dapp left out of the strip has a higher TVL than any dapp shown. */
  lemma TrendingTop(dapps: seq<FeedItem>)
    ensures var r := Trending(dapps);
      forall y, i :: y in multiset(dapps) - multiset(r) && 0 <= i < |r| ==> Tvl(y) <= Tvl(r[i])
  {
    var sorted := SortByTvl(dapps);
    SortByTvlSpec(dapps);
    var r := Trending(dapps);
    var rest := sorted[|r|..];
    assert sorted == r + rest;
    MultisetRest(r, rest);
    SortedSplit(sorted, |r|);
    assert forall i :: 0 <= i < |r| ==> r[i] == sorted[i];
  }
}
