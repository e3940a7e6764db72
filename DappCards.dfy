/** The card list the dapp grid shows (`src/data/dappsData.js`): the first
    25 catalogue entries, each turned into a card with a palette colour, a
    fallback description and category, the links to vote and collect, and
    short TVL and user labels. */
module DappCards {
  import opened Strings
  import Catalogue

  const Palette: seq<string> := ["#38bdf8", "#f97316", "#a855f7", "#facc15", "#22c55e", "#ec4899"]
  const FallbackDescription: string := "Khám phá hệ sinh thái Monad cùng Chog."
  const CardLimit: nat := 25

  datatype Card = Card(
    id: string,
    name: string,
    description: string,
    category: string,
    voteUrl: string,
    collectUrl: string,
    color: string,
    tvlLabel: string,
    userLabel: string)

  /** `a || b` on strings. */
  function OrElse(a: string, b: string): string {
    if a != "" then a else b
  }

  /** `list?.[0] || fallback` */
  function FirstOr(list: seq<string>, fallback: string): string {
    if list != [] then OrElse(list[0], fallback) else fallback
  }

  /** `Math.round(score / 10)` for a non-negative score, halves rounding up. */
  function RoundTenth(score: nat): nat {
    (score + 5) / 10
  }

  /** The rounded value is the integer nearest to `score / 10`, a half
      going up, exactly as `Math.round` picks it. */
  lemma RoundTenthSpec(score: nat)
    ensures var r := RoundTenth(score);
      (r as real) - 0.5 <= (score as real) / 10.0 < (r as real) + 0.5
  {
    var r := RoundTenth(score);
    assert 10 * r <= score + 5 < 10 * r + 10;
    assert (10 * r) as real - 5.0 <= score as real < (10 * r) as real + 5.0;
  }

  /** `popularityScore ? `${Math.round(popularityScore / 10)}k` : 'n/a'` */
  function TvlLabel(score: nat): string {
    if score != 0 then NatToString(RoundTenth(score)) + "k" else "n/a"
  }

  /** "n/a" exactly for a zero score; otherwise digits and a `k`, and the
      digits read back as the rounded score. */
  lemma TvlLabelSpec(score: nat)
    ensures var shown := TvlLabel(score);
      && (shown == "n/a" <==> score == 0)
      && (score != 0 ==>
            && |shown| >= 2 && shown[|shown| - 1] == 'k'
            && (forall i :: 0 <= i < |shown| - 1 ==> IsDigit(shown[i]))
            && DigitsValue(shown[..|shown| - 1]) == RoundTenth(score))
  {
    if score != 0 {
      var digits := NatToString(RoundTenth(score));
      assert TvlLabel(score)[..|TvlLabel(score)| - 1] == digits;
      NatToStringRoundTrip(RoundTenth(score));
      assert TvlLabel(score)[0] == digits[0];
      assert IsDigit(digits[0]);
    }
  }

  /** Two scores get the same label only when they round to the same
      number of thousands. */
  lemma TvlLabelInjective(a: nat, b: nat)
    requires a != 0 && b != 0 && TvlLabel(a) == TvlLabel(b)
    ensures RoundTenth(a) == RoundTenth(b)
  {
    var sa := NatToString(RoundTenth(a));
    var sb := NatToString(RoundTenth(b));
    assert TvlLabel(a)[..|TvlLabel(a)| - 1] == sa;
    assert TvlLabel(b)[..|TvlLabel(b)| - 1] == sb;
    NatToStringInjective(RoundTenth(a), RoundTenth(b));
  }

  /** `${votes ?? 0}`: the catalogue always has a vote count, so this is
      its decimal rendering, which reads back as the count. */
  function UserLabel(votes: nat): string {
    NatToString(votes)
  }

  /** The user label reads back as the vote count. */
  lemma UserLabelRoundTrip(votes: nat)
    ensures forall i :: 0 <= i < |UserLabel(votes)| ==> IsDigit(UserLabel(votes)[i])
    ensures DigitsValue(UserLabel(votes)) == votes
  {
    NatToStringRoundTrip(votes);
  }

  /** One card, for the entry at position `index`. */
  function CardOf(dapp: Catalogue.DappItem, index: nat): Card {
    Card(
      id := dapp.id,
      name := dapp.name,
      description := OrElse(dapp.description, FallbackDescription),
      category := if |dapp.categories| > 0 then dapp.categories[0] else "General",
      voteUrl := OrElse(dapp.url, FirstOr(dapp.links, "")),
      collectUrl := FirstOr(dapp.socials, ""),
      color := Palette[index % |Palette|],
      tvlLabel := TvlLabel(dapp.popularityScore),
      userLabel := UserLabel(dapp.votes))
  }

  /** A card never lacks a description: it is the entry's, else the
      fallback; its category is the first category or "General"; the vote
      link is the site, else the first link, else empty; the collect link
      is the first social link or empty; the colour is the palette's, by
      position, cycling. */
  lemma CardOfSpec(dapp: Catalogue.DappItem, index: nat)
    ensures var c := CardOf(dapp, index);
      && c.id == dapp.id && c.name == dapp.name
      && c.description != ""
      && (dapp.description != "" ==> c.description == dapp.description)
      && (dapp.description == "" ==> c.description == FallbackDescription)
      && (|dapp.categories| > 0 ==> c.category == dapp.categories[0])
      && (c.category == "General" <==> dapp.categories == [] || dapp.categories[0] == "General")
      && (dapp.url != "" ==> c.voteUrl == dapp.url)
      && (c.voteUrl == "" <==> dapp.url == "" && (dapp.links == [] || dapp.links[0] == ""))
      && (dapp.url == "" && dapp.links != [] ==> c.voteUrl == dapp.links[0])
      && (dapp.socials != [] ==> c.collectUrl == dapp.socials[0])
      && (dapp.socials == [] ==> c.collectUrl == "")
      && c.color == Palette[index % |Palette|] && c.color in Palette
  {
  }

  /** On a catalogue entry, the collect link is the entry's first social
      link; with none, it is `csvMeta.x` when that is not a social link,
      else empty. */
  lemma CardCollectUrl(e: Catalogue.EcoItem, id: string, index: nat)
    ensures var c := CardOf(Catalogue.MapEcosystemEntry(e, id), index);
      && (forall i :: (0 <= i < |e.links| && Catalogue.IsSocialLink(e.links[i])
           && forall j :: 0 <= j < i ==> !Catalogue.IsSocialLink(e.links[j])) ==> c.collectUrl == e.links[i])
      && ((forall i :: 0 <= i < |e.links| ==> !Catalogue.IsSocialLink(e.links[i])) ==>
           c.collectUrl == if e.x != "" && !Catalogue.IsSocialLink(e.x) then e.x else "")
  {
    Catalogue.SocialsSpec(e);
    Catalogue.FirstSocial(e.links);
  }

  /** `dAppsData.slice(0, 25).map(…)` */
  function Cards(items: seq<Catalogue.DappItem>): seq<Card> {
    var n := if |items| < CardLimit then |items| else CardLimit;
    seq(n, i requires 0 <= i < n => CardOf(items[i], i))
  }

  /** At most 25 cards: the first entries in catalogue order, with their
      ids and names. */
  lemma CardsSpec(items: seq<Catalogue.DappItem>)
    ensures var cards := Cards(items);
      && |cards| == (if |items| < CardLimit then |items| else CardLimit)
      && (forall i :: 0 <= i < |cards| ==> cards[i].id == items[i].id && cards[i].name == items[i].name)
  {
  }

  /** The colours cycle through the palette, so neighbouring cards differ
      and every sixth card repeats a colour. */
  lemma CardsColors(items: seq<Catalogue.DappItem>)
    ensures var cards := Cards(items);
      && (forall i :: 0 <= i < |cards| - 1 ==> cards[i].color != cards[i + 1].color)
      && (forall i :: 0 <= i < |cards| - |Palette| ==> cards[i].color == cards[i + |Palette|].color)
  {
    var cards := Cards(items);
    assert forall i :: 0 <= i < |cards| ==> cards[i].color == Palette[i % |Palette|];
    forall i | 0 <= i < |cards| - 1 ensures cards[i].color != cards[i + 1].color {
      PaletteCycle(i);
    }
    forall i | 0 <= i < |cards| - |Palette| ensures cards[i].color == cards[i + |Palette|].color {
      PaletteCycle(i);
    }
  }

  /** The six palette colours are distinct, and position `i` and `i + 6`
      pick the same one. */
  lemma PaletteCycle(i: nat)
    ensures Palette[i % |Palette|] != Palette[(i + 1) % |Palette|]
    ensures Palette[(i + |Palette|) % |Palette|] == Palette[i % |Palette|]
  {
    var q, k := i / 6, i % 6;
    assert i == 6 * q + k;
    if k == 5 {
      assert i + 1 == 6 * (q + 1);
    } else {
      assert i + 1 == 6 * q + (k + 1);
    }
    assert i + 6 == 6 * (q + 1) + k;
  }
}
