/** The HistoryPage component: the connected account's own greetings among
    those the board retains, and the "Your Stats" panel. */
module HistoryPage {
  import opened Util
  import opened Strings
  import opened Ledger

  /** `g.sender.toLowerCase() === address?.toLowerCase()`: the sender is the
      connected account, ignoring letter case; with no connected address
      nothing matches. */
  predicate SentBy(g: Greeting, address: Option<Address>)
    ensures SentBy(g, address) ==> address.Some? && |g.sender| == |address.value|
    ensures address.Some? && g.sender == address.value ==> SentBy(g, address)
  {
    address.Some? && ToLower(g.sender) == ToLower(address.value)
  }

  /** Matching ignores letter case: the address and its lower-case form
      match the same greetings. */
  lemma SentByIgnoresCase(g: Greeting, address: Address)
    ensures SentBy(g, Some(address)) <==> SentBy(g, Some(ToLower(address)))
  {
    ToLowerIdempotent(address);
  }

  /** `sub` is `s` with some elements left out and the rest in order. */
  ghost predicate IsSubsequence(sub: seq<Greeting>, s: seq<Greeting>)
    decreases |s|
  {
    sub == []
    || (s != [] && ((sub[0] == s[0] && IsSubsequence(sub[1..], s[1..])) || IsSubsequence(sub, s[1..])))
  }

  /** The `filter` of the page: the greetings the connected account sent,
      in the order the board returned them. */
  function FilterBySender(greetings: seq<Greeting>, address: Option<Address>): (r: seq<Greeting>)
    ensures |r| <= |greetings|
    ensures forall g :: g in r <==> g in greetings && SentBy(g, address)
    ensures IsSubsequence(r, greetings)
    ensures address.None? ==> r == []
  {
    if greetings == [] then []
    else
      var rest := FilterBySender(greetings[1..], address);
      if SentBy(greetings[0], address) then [greetings[0]] + rest else rest
  }

  /** Each greeting of the account is kept as many times as it occurs, and
      every other greeting is dropped. */
  lemma {:induction false} FilterKeepsMultiplicity(greetings: seq<Greeting>, address: Option<Address>)
    ensures var r := FilterBySender(greetings, address);
      forall g :: multiset(r)[g] == if SentBy(g, address) then multiset(greetings)[g] else 0
  {
    if greetings != [] {
      FilterKeepsMultiplicity(greetings[1..], address);
      assert greetings == [greetings[0]] + greetings[1..];
    }
  }

  /** `userGreetings`: nothing before the greetings are fetched or without
      a connected address; otherwise the account's own greetings, in order. */
  function UserGreetings(fetched: Option<seq<Greeting>>, address: Option<Address>): (r: seq<Greeting>)
    ensures fetched.None? || address.None? ==> r == []
    ensures fetched.Some? ==>
      IsSubsequence(r, fetched.value) && (forall g :: g in r <==> g in fetched.value && SentBy(g, address))
      && forall g :: multiset(r)[g] == if SentBy(g, address) then multiset(fetched.value)[g] else 0
  {
    match fetched
    case None => []
    case Some(greetings) =>
      FilterKeepsMultiplicity(greetings, address);
      FilterBySender(greetings, address)
  }

  /** Filtering the account's greetings again by the same account changes nothing. */
  lemma {:induction false} FilterIdempotent(greetings: seq<Greeting>, address: Option<Address>)
    ensures FilterBySender(FilterBySender(greetings, address), address) == FilterBySender(greetings, address)
  {
    if greetings != [] {
      FilterIdempotent(greetings[1..], address);
    }
  }

  /** The account's greetings on the page are never more than the board retains. */
  lemma UserGreetingsBounded(history: seq<Greeting>, address: Option<Address>)
    ensures |UserGreetings(Some(Retained(history)), address)| <= MAX_GREETINGS
  {
  }

  /** The "Your Stats" panel: the account's number of greetings and the one it posted last. */
  datatype Stats = Stats(totalGreetings: nat, lastPosted: Greeting)

  /** The panel is shown only to a connected account with greetings, so
      "Last Posted" always reads one of the account's greetings: the last
      in the board's order. */
  function YourStats(isConnected: bool, userGreetings: seq<Greeting>): (r: Option<Stats>)
    ensures r.Some? <==> isConnected && |userGreetings| > 0
    ensures r.Some? ==>
      r.value.totalGreetings == |userGreetings|
      && r.value.lastPosted in userGreetings
      && r.value.lastPosted == userGreetings[|userGreetings| - 1]
  {
    if isConnected && |userGreetings| > 0
    then Some(Stats(|userGreetings|, userGreetings[|userGreetings| - 1]))
    else None
  }

  /** Position `i` holds a greeting of the account, and none after it does. */
  ghost predicate IsLastSentBy(greetings: seq<Greeting>, address: Option<Address>, i: int)
  {
    0 <= i < |greetings| && SentBy(greetings[i], address)
    && forall j :: i < j < |greetings| ==> !SentBy(greetings[j], address)
  }

  /** When the account sent none of the greetings after the first, none of them is `SentBy` it. */
  lemma NoneSentAfterFirst(greetings: seq<Greeting>, address: Option<Address>)
    requires greetings != [] && FilterBySender(greetings[1..], address) == []
    ensures forall j :: 0 < j < |greetings| ==> !SentBy(greetings[j], address)
  {
    forall j | 0 < j < |greetings|
      ensures !SentBy(greetings[j], address)
    {
      assert greetings[j] == greetings[1..][j - 1];
    }
  }

  /** The account's last greeting in the tail is its last one in the whole list. */
  lemma LastSentShift(greetings: seq<Greeting>, address: Option<Address>, i: int)
    requires greetings != [] && IsLastSentBy(greetings[1..], address, i)
    ensures IsLastSentBy(greetings, address, i + 1) && greetings[i + 1] == greetings[1..][i]
  {
    forall j | i + 1 < j < |greetings|
      ensures !SentBy(greetings[j], address)
    {
      assert greetings[j] == greetings[1..][j - 1];
    }
  }

  /** The last of the account's greetings is its latest retained one: no
      greeting after it on the board was sent by the account. */
  lemma {:induction false} LastPostedIsLatest(greetings: seq<Greeting>, address: Option<Address>)
    requires FilterBySender(greetings, address) != []
    ensures var mine := FilterBySender(greetings, address);
      exists i :: IsLastSentBy(greetings, address, i) && greetings[i] == mine[|mine| - 1]
  {
    var rest := FilterBySender(greetings[1..], address);
    if rest == [] {
      NoneSentAfterFirst(greetings, address);
      assert IsLastSentBy(greetings, address, 0);
    } else {
      LastPostedIsLatest(greetings[1..], address);
      var i :| IsLastSentBy(greetings[1..], address, i) && greetings[1..][i] == rest[|rest| - 1];
      LastSentShift(greetings, address, i);
    }
  }
}
