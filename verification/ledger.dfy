/** The GreetingBoard contract: a board that keeps the five most recent
    greetings, oldest first, and counts every greeting it ever accepted.
    The calling account and the block time are supplied by the chain, so
    they are parameters of the write. */
module Ledger {
  import opened Util

  /** An account, written as its hexadecimal address text. */
  type Address = string

  /** `MAX_GREETINGS`: how many greetings the board retains. */
  const MAX_GREETINGS: nat := 5

  /** The revert reason of a write with an empty message. */
  const EMPTY_MESSAGE_REASON: string := "Message cannot be empty"

  /** The `Greeting` struct: who wrote what, and the block time of the write. */
  datatype Greeting = Greeting(sender: Address, message: string, timestamp: nat)

  /** The payload of the `GreetingUpdated` event. */
  datatype GreetingUpdated = GreetingUpdated(sender: Address, message: string, timestamp: nat)

  /** Why a call fails: a `require` that reverts with a reason, or an index
      past the end of the retained greetings. */
  datatype Failure = Revert(reason: string) | IndexOutOfBounds

  datatype Result<+T> = Ok(value: T) | Err(failure: Failure)

  /** The board's only rule on its input: the message is not empty. */
  predicate AcceptsMessage(message: string)
  {
    |message| > 0
  }

  function Notification(g: Greeting): GreetingUpdated
  {
    GreetingUpdated(g.sender, g.message, g.timestamp)
  }

  /** What the board retains of the whole history of accepted writes: the
      last `MAX_GREETINGS` of them (all of them while there are fewer), in
      the order they were written. */
  function Retained(history: seq<Greeting>): (r: seq<Greeting>)
    ensures |r| == Min(|history|, MAX_GREETINGS)
    ensures r == history[|history| - |r|..]
  {
    if |history| <= MAX_GREETINGS then history else history[|history| - MAX_GREETINGS..]
  }

  /** The eviction step of one write: a full board drops its oldest
      greeting, so the result is a suffix of the board with room for one more. */
  function Evict(entries: seq<Greeting>): (r: seq<Greeting>)
    ensures |entries| <= MAX_GREETINGS ==> |r| < MAX_GREETINGS
    ensures |entries| - 1 <= |r| <= |entries| && r == entries[|entries| - |r|..]
  {
    if |entries| == MAX_GREETINGS then entries[1..] else entries
  }

  /** Evicting the oldest retained greeting and appending the new one keeps
      exactly the last `MAX_GREETINGS` writes. */
  lemma {:induction false} RetainedAppend(history: seq<Greeting>, g: Greeting)
    ensures Retained(history + [g]) == Evict(Retained(history)) + [g]
  {
    var h := history + [g];
    if |history| >= MAX_GREETINGS {
      var n := |history|;
      assert Retained(history)[1..] == history[n - 4..];
      assert h[|h| - MAX_GREETINGS..] == history[n - 4..] + [g];
    }
  }

  class GreetingBoard {
    /** `greetings`: the retained greetings, oldest first. */
    var greetings: seq<Greeting>
    /** `totalGreetings`: how many writes the board has ever accepted. */
    var totalGreetings: nat
    /** Every greeting ever accepted, oldest first, including evicted ones. */
    ghost var accepted: seq<Greeting>

    ghost predicate Valid()
      reads this
    {
      totalGreetings == |accepted| && greetings == Retained(accepted)
    }

    /** A freshly deployed board: no greetings, nothing counted. */
    constructor ()
      ensures Valid()
      ensures accepted == [] && greetings == [] && totalGreetings == 0
    {
      greetings := [];
      totalGreetings := 0;
      accepted := [];
    }

    /** `writeGreeting`: rejects an empty message and changes nothing;
        otherwise drops the oldest greeting when the board is full, appends
        the new one, counts it and emits `GreetingUpdated`. */
    method WriteGreeting(caller: Address, message: string, now: nat) returns (r: Result<GreetingUpdated>)
      requires Valid()
      modifies this
      ensures Valid()
      ensures !AcceptsMessage(message) ==>
        r == Err(Revert(EMPTY_MESSAGE_REASON)) && unchanged(this)
      ensures AcceptsMessage(message) ==>
        var g := Greeting(caller, message, now);
        && r == Ok(GreetingUpdated(caller, message, now))
        && accepted == old(accepted) + [g]
        && greetings == Evict(old(greetings)) + [g]
        && totalGreetings == old(totalGreetings) + 1
    {
      if !AcceptsMessage(message) {
        return Err(Revert(EMPTY_MESSAGE_REASON));
      }
      var g := Greeting(caller, message, now);
      if |greetings| == MAX_GREETINGS {
        greetings := greetings[1..];
      }
      greetings := greetings + [g];
      totalGreetings := totalGreetings + 1;
      RetainedAppend(accepted, g);
      accepted := accepted + [g];
      r := Ok(GreetingUpdated(caller, message, now));
    }

    /** `getAllGreetings`: the last writes the board retains, at most
        `MAX_GREETINGS` of them, oldest first. */
    function GetAllGreetings(): (r: seq<Greeting>)
      reads this
      requires Valid()
      ensures |r| <= MAX_GREETINGS && |r| == Min(totalGreetings, MAX_GREETINGS)
      ensures r == Retained(accepted)
    {
      greetings
    }

    /** `getGreetingsCount`: how many greetings are retained. */
    function GetGreetingsCount(): (n: nat)
      reads this
      requires Valid()
      ensures n <= MAX_GREETINGS && n <= totalGreetings
      ensures n == Min(totalGreetings, MAX_GREETINGS)
    {
      |greetings|
    }

    /** `getTotalGreetings` and the public `totalGreetings`: the number of
        accepted writes, evicted ones included. */
    function GetTotalGreetings(): (n: nat)
      reads this
      requires Valid()
      ensures n == |accepted| && n >= |greetings|
    {
      totalGreetings
    }

    /** The public array getter `greetings(i)`: the greeting of the write
        that is `i`-th oldest among those retained, or a failure past the end. */
    function GreetingAt(i: nat): (r: Result<Greeting>)
      reads this
      requires Valid()
      ensures r.Ok? <==> i < Min(totalGreetings, MAX_GREETINGS)
      ensures r.Ok? ==> r.value == accepted[|accepted| - |greetings| + i]
      ensures r.Err? ==> r.failure == IndexOutOfBounds
    {
      if i < |greetings| then Ok(greetings[i]) else Err(IndexOutOfBounds)
    }
  }

  /** One `writeGreeting` transaction: the signer, the message and the block time. */
  datatype Call = Call(caller: Address, message: string, now: nat)

  function GreetingOf(c: Call): Greeting
  {
    Greeting(c.caller, c.message, c.now)
  }

  /** The greetings a sequence of transactions adds to the history: one per
      transaction whose message the board accepts, in transaction order. */
  function AcceptedBy(calls: seq<Call>): seq<Greeting>
  {
    if calls == [] then []
    else
      var c := calls[|calls| - 1];
      AcceptedBy(calls[..|calls| - 1]) + (if AcceptsMessage(c.message) then [GreetingOf(c)] else [])
  }

  lemma AcceptedByStep(calls: seq<Call>, i: nat)
    requires i < |calls|
    ensures AcceptedBy(calls[..i + 1])
      == AcceptedBy(calls[..i]) + (if AcceptsMessage(calls[i].message) then [GreetingOf(calls[i])] else [])
  {
    assert calls[..i + 1][..i] == calls[..i];
  }

  /** The events a history of accepted writes emitted, one per write, in order. */
  function Notifications(history: seq<Greeting>): (r: seq<GreetingUpdated>)
    ensures |r| == |history|
    ensures forall k :: 0 <= k < |r| ==> r[k] == Notification(history[k])
  {
    if history == [] then []
    else Notifications(history[..|history| - 1]) + [Notification(history[|history| - 1])]
  }

  /** Deploys a fresh board, sends it `calls` in order, and reads back what
      the board returns and the events it emitted: the retained greetings
      are the last accepted writes, the total counts every accepted write,
      and each accepted write emitted one event with its own payload. */
  method Replay(calls: seq<Call>) returns (all: seq<Greeting>, total: nat, events: seq<GreetingUpdated>)
    ensures all == Retained(AcceptedBy(calls))
    ensures total == |AcceptedBy(calls)|
    ensures |events| == total
    ensures forall k :: 0 <= k < |events| ==> events[k] == Notification(AcceptedBy(calls)[k])
  {
    var board := new GreetingBoard();
    events := [];
    for i := 0 to |calls|
      invariant board.Valid()
      invariant board.accepted == AcceptedBy(calls[..i])
      invariant events == Notifications(board.accepted)
    {
      var c := calls[i];
      AcceptedByStep(calls, i);
      ghost var before := board.accepted;
      var r := board.WriteGreeting(c.caller, c.message, c.now);
      if r.Ok? {
        assert board.accepted[..|before|] == before;
        events := events + [r.value];
      }
    }
    assert calls[..|calls|] == calls;
    all := board.GetAllGreetings();
    total := board.GetTotalGreetings();
  }

  /** When every transaction carries a message, each one is accepted, and
      the history is the transactions' greetings in order. */
  lemma {:induction false} AllAccepted(calls: seq<Call>)
    requires forall k :: 0 <= k < |calls| ==> AcceptsMessage(calls[k].message)
    ensures |AcceptedBy(calls)| == |calls|
    ensures forall k :: 0 <= k < |calls| ==> AcceptedBy(calls)[k] == GreetingOf(calls[k])
  {
    if calls != [] {
      AllAccepted(calls[..|calls| - 1]);
    }
  }

  /** Six writes with messages: the board keeps the last five, so the
      first greeting is the second write and the last is the sixth. */
  lemma SixWritesKeepLastFive(calls: seq<Call>)
    requires |calls| == 6
    requires forall k :: 0 <= k < |calls| ==> AcceptsMessage(calls[k].message)
    ensures var r := Retained(AcceptedBy(calls));
      |r| == 5 && forall k :: 0 <= k < 5 ==> r[k] == GreetingOf(calls[k + 1])
  {
    AllAccepted(calls);
  }

  /** The retained greetings are the last writes in the order they were
      sent, whichever accounts sent them: the `k`-th retained greeting is
      the greeting of transaction `|calls| - |retained| + k`. */
  lemma RetainedAreLatestWrites(calls: seq<Call>)
    requires forall k :: 0 <= k < |calls| ==> AcceptsMessage(calls[k].message)
    ensures var r := Retained(AcceptedBy(calls));
      |r| == Min(|calls|, MAX_GREETINGS)
      && forall k :: 0 <= k < |r| ==> r[k] == GreetingOf(calls[|calls| - |r| + k])
  {
    AllAccepted(calls);
  }
}
