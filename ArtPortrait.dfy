/** The dapp portrait card (src/components/ArtPortrait.jsx): the category
    chips, the icon shown for each social link, and the wallet guard on the
    vote and collect buttons. */
module ArtPortrait {
  import opened Common
  import opened Strings

  // Category chips and social links

  /** `categories`: the dapp's `categories` when it is an array (`None`
      stands for any non-array value), else its single truthy `category`,
      else nothing. */
  function CategoriesOf(categories: Option<seq<string>>, category: Option<string>): seq<string> {
    if categories.Some? then categories.value
    else if category.Some? && category.value != "" then [category.value]
    else []
  }

  /** An array of categories is shown as it is; otherwise at most one chip,
      present exactly when `category` is a non-empty string. */
  lemma CategoriesSpec(categories: Option<seq<string>>, category: Option<string>)
    ensures var chips := CategoriesOf(categories, category);
      && (categories.Some? ==> chips == categories.value)
      && (categories.None? ==> |chips| <= 1)
      && (categories.None? ==> (chips != [] <==> category.Some? && category.value != ""))
      && (forall k :: 0 <= k < |chips| ==> chips[k] != "" || categories.Some?)
  {
  }

  /** `socialLinks`: the dapp's `socials` when it is an array, else none. */
  function SocialLinks(socials: Option<seq<string>>): seq<string> {
    socials.GetOr([])
  }

  // Social icons

  datatype Icon = XIcon | FarcasterIcon | DiscordIcon | TelegramIcon | LinkedInIcon | WritingIcon | CodeIcon | Globe

  /** The character each icon renders as. */
  function Glyph(icon: Icon): string {
    match icon
    case XIcon => "\U{1D54F}"
    case FarcasterIcon => "\U{1F300}"
    case DiscordIcon => "\U{1F4AC}"
    case TelegramIcon => "\U{1F4E3}"
    case LinkedInIcon => "\U{1F517}"
    case WritingIcon => "✍️"
    case CodeIcon => "\U{1F419}"
    case Globe => "\U{1F310}"
  }

  /** `getSocialIcon(link)`: the checks on the lower-cased link, in order;
      the first that holds picks the icon. */
  function SocialIcon(link: string): Icon {
    var lower := ToLower(link);
    if Contains(lower, "x.com") || Contains(lower, "twitter") then XIcon
    else if Contains(lower, "warpcast") || Contains(lower, "farcaster") then FarcasterIcon
    else if Contains(lower, "discord") then DiscordIcon
    else if Contains(lower, "telegram") || Contains(lower, "t.me") then TelegramIcon
    else if Contains(lower, "linkedin") then LinkedInIcon
    else if Contains(lower, "medium") || Contains(lower, "mirror.xyz") then WritingIcon
    else if Contains(lower, "github") || Contains(lower, "gitbook") then CodeIcon
    else Globe
  }

  /** A rule: the fragments to look for, and the icon they select. */
  datatype Rule = Rule(fragments: seq<string>, icon: Icon)

  /** The rules as a table, in the order the source tries them. */
  const Rules: seq<Rule> := [
    Rule(["x.com", "twitter"], XIcon),
    Rule(["warpcast", "farcaster"], FarcasterIcon),
    Rule(["discord"], DiscordIcon),
    Rule(["telegram", "t.me"], TelegramIcon),
    Rule(["linkedin"], LinkedInIcon),
    Rule(["medium", "mirror.xyz"], WritingIcon),
    Rule(["github", "gitbook"], CodeIcon)
  ]

  /** Whether any of the fragments occurs in `s`. */
  predicate AnyOf(s: string, fragments: seq<string>) {
    fragments != [] && (Contains(s, fragments[0]) || AnyOf(s, fragments[1..]))
  }

  /** The icon of the first rule that matches, the globe when none does. */
  function FirstMatch(s: string, rules: seq<Rule>): (r: Icon)
    ensures r == Globe || exists i :: 0 <= i < |rules| && r == rules[i].icon
  {
    if rules == [] then Globe
    else if AnyOf(s, rules[0].fragments) then rules[0].icon
    else FirstMatch(s, rules[1..])
  }

  /** The chain of checks is the rule table read top to bottom. */
  lemma SocialIconIsFirstMatch(link: string)
    ensures SocialIcon(link) == FirstMatch(ToLower(link), Rules)
  {
    var s := ToLower(link);
    AnyOfPair(s, "x.com", "twitter");
    AnyOfPair(s, "warpcast", "farcaster");
    AnyOfPair(s, "discord", "discord");
    AnyOfPair(s, "telegram", "t.me");
    AnyOfPair(s, "linkedin", "linkedin");
    AnyOfPair(s, "medium", "mirror.xyz");
    AnyOfPair(s, "github", "gitbook");
    var tail := FirstMatch(s, Rules[7..]);
    assert tail == Globe;
    assert FirstMatch(s, Rules[6..]) == if Contains(s, "github") || Contains(s, "gitbook") then CodeIcon else tail;
    assert FirstMatch(s, Rules[5..]) == if Contains(s, "medium") || Contains(s, "mirror.xyz") then WritingIcon
      else FirstMatch(s, Rules[6..]);
    assert FirstMatch(s, Rules[4..]) == if Contains(s, "linkedin") then LinkedInIcon else FirstMatch(s, Rules[5..]);
    assert FirstMatch(s, Rules[3..]) == if Contains(s, "telegram") || Contains(s, "t.me") then TelegramIcon
      else FirstMatch(s, Rules[4..]);
    assert FirstMatch(s, Rules[2..]) == if Contains(s, "discord") then DiscordIcon else FirstMatch(s, Rules[3..]);
    assert FirstMatch(s, Rules[1..]) == if Contains(s, "warpcast") || Contains(s, "farcaster") then FarcasterIcon
      else FirstMatch(s, Rules[2..]);
  }

  /** One or two fragments: any of them occurring. */
  lemma AnyOfPair(s: string, a: string, b: string)
    ensures AnyOf(s, [a]) <==> Contains(s, a)
    ensures AnyOf(s, [a, b]) <==> Contains(s, a) || Contains(s, b)
  {
    assert [a][1..] == [];
    assert [a, b][1..] == [b] && [b][1..] == [];
  }

  /** The first matching rule wins: a rule's icon is chosen exactly when the
      rule matches and no earlier rule does, and the globe exactly when no
      rule matches. */
  lemma {:induction false} FirstMatchSpec(s: string, rules: seq<Rule>, k: nat)
    requires k < |rules|
    requires forall i, j :: 0 <= i < j < |rules| ==> rules[i].icon != rules[j].icon
    requires forall i :: 0 <= i < |rules| ==> rules[i].icon != Globe
    ensures FirstMatch(s, rules) == rules[k].icon <==>
      AnyOf(s, rules[k].fragments) && forall j :: 0 <= j < k ==> !AnyOf(s, rules[j].fragments)
    ensures FirstMatch(s, rules) == Globe <==> forall j :: 0 <= j < |rules| ==> !AnyOf(s, rules[j].fragments)
    decreases |rules|
  {
    if |rules| > 1 {
      var rest := rules[1..];
      assert forall j :: 0 <= j < |rest| ==> rest[j] == rules[j + 1];
      if k > 0 {
        FirstMatchSpec(s, rest, k - 1);
      } else {
        FirstMatchSpec(s, rest, 0);
      }
    } else {
      assert rules[1..] == [];
    }
  }

  /** The rule icons are distinct and none is the globe. */
  lemma RulesDistinct()
    ensures forall i, j :: 0 <= i < j < |Rules| ==> Rules[i].icon != Rules[j].icon
    ensures forall i :: 0 <= i < |Rules| ==> Rules[i].icon != Globe
  {
  }

  /** `getSocialIcon` shows rule `k`'s icon exactly when one of its fragments
      occurs in the lower-cased link and no earlier rule's does, and the
      globe exactly when no fragment occurs. */
  lemma SocialIconSpec(link: string, k: nat)
    requires k < |Rules|
    ensures SocialIcon(link) == Rules[k].icon <==>
      AnyOf(ToLower(link), Rules[k].fragments) && forall j :: 0 <= j < k ==> !AnyOf(ToLower(link), Rules[j].fragments)
    ensures SocialIcon(link) == Globe <==> forall j :: 0 <= j < |Rules| ==> !AnyOf(ToLower(link), Rules[j].fragments)
  {
    SocialIconIsFirstMatch(link);
    RulesDistinct();
    FirstMatchSpec(ToLower(link), Rules, k);
  }

  /** Case does not matter: a link, its lower-cased and its upper-cased
      forms get the same icon. */
  lemma SocialIconIgnoresCase(link: string)
    ensures SocialIcon(ToLower(link)) == SocialIcon(link)
    ensures SocialIcon(ToUpper(link)) == SocialIcon(link)
  {
    LowerIdempotent(link);
    LowerOfUpper(link);
  }

  /** For example, a link naming both X and Discord gets the X icon. */
  lemma XBeforeDiscord(link: string)
    requires Contains(ToLower(link), "twitter") && Contains(ToLower(link), "discord")
    ensures SocialIcon(link) == XIcon
  {
  }

  /** The row of social icons: absent when there are no links, else one
      icon per link, in order. */
  function SocialRow(socials: Option<seq<string>>): Option<seq<Icon>> {
    var links := SocialLinks(socials);
    if |links| > 0 then Some(seq(|links|, i requires 0 <= i < |links| => SocialIcon(links[i]))) else None
  }

  /** The row is shown exactly for a non-empty array of links, and its k-th
      icon is the k-th link's. */
  lemma SocialRowSpec(socials: Option<seq<string>>)
    ensures SocialRow(socials).Some? <==> socials.Some? && socials.value != []
    ensures SocialRow(socials).Some? ==>
      && |SocialRow(socials).value| == |socials.value|
      && forall k :: 0 <= k < |socials.value| ==> SocialRow(socials).value[k] == SocialIcon(socials.value[k])
  {
  }

  // Wallet guard

  datatype Button = VoteButton | CollectButton

  /** What pressing a button does: an alert, or a call of `onVote` or
      `onCollect` with the dapp's id. */
  datatype Outcome = Alerted(message: string) | Invoked(button: Button, dappId: string)

  const ConnectWalletMessage: string := "Please connect your wallet first!"

  /** `handleVote` and `handleCollect`. */
  function Press(button: Button, walletConnected: bool, dappId: string): Outcome {
    if !walletConnected then Alerted(ConnectWalletMessage) else Invoked(button, dappId)
  }

  /** The callbacks run exactly when the wallet is connected, for the button
      pressed and this dapp's id; otherwise the user is asked to connect. */
  lemma PressSpec(button: Button, walletConnected: bool, dappId: string)
    ensures Press(button, walletConnected, dappId).Invoked? <==> walletConnected
    ensures Press(button, walletConnected, dappId).Invoked? ==>
      Press(button, walletConnected, dappId) == Invoked(button, dappId)
    ensures !walletConnected ==> Press(button, walletConnected, dappId) == Alerted(ConnectWalletMessage)
  {
  }

  /** A press: which button, and whether the wallet was connected then. */
  datatype Click = Click(button: Button, connected: bool)

  /** The outcomes of a series of presses on one card. */
  function Session(clicks: seq<Click>, dappId: string): seq<Outcome> {
    seq(|clicks|, i requires 0 <= i < |clicks| => Press(clicks[i].button, clicks[i].connected, dappId))
  }

  /** The callbacks that ran, in order. */
  function Invocations(outcomes: seq<Outcome>): seq<Button> {
    if outcomes == [] then []
    else (if outcomes[0].Invoked? then [outcomes[0].button] else []) + Invocations(outcomes[1..])
  }

  /** The buttons pressed while the wallet was connected, in order. */
  function ConnectedPresses(clicks: seq<Click>): seq<Button> {
    if clicks == [] then []
    else (if clicks[0].connected then [clicks[0].button] else []) + ConnectedPresses(clicks[1..])
  }

  /** Over any series of presses, the callbacks that run are exactly the
      presses made with a connected wallet, in order: a disconnected press
      never reaches `onVote` or `onCollect`. */
  lemma {:induction false} SessionGuard(clicks: seq<Click>, dappId: string)
    ensures Invocations(Session(clicks, dappId)) == ConnectedPresses(clicks)
    decreases |clicks|
  {
    if clicks != [] {
      SessionGuard(clicks[1..], dappId);
      assert Session(clicks, dappId)[1..] == Session(clicks[1..], dappId);
    }
  }
}
