/** The GreetingList component: the list of retained greetings with a
    newest/oldest sort toggle, an avatar colour per card, the abbreviated
    sender and the relative age of each greeting. */
module GreetingList {
  import opened Util
  import opened Strings
  import opened Ledger

  /** The avatar gradients, one per card position modulo their number. */
  const GRADIENT_COLORS: seq<string> := [
    "from-pink-500 to-indigo-500",
    "from-cyan-400 to-blue-600",
    "from-amber-400 to-orange-600",
    "from-green-400 to-emerald-600",
    "from-purple-400 to-pink-600"
  ]

  datatype SortOrder = Newest | Oldest

  /** The other sort order. */
  function Toggled(order: SortOrder): (r: SortOrder)
    ensures r != order
  {
    if order == Newest then Oldest else Newest
  }

  /** Toggling twice restores the order. */
  lemma ToggleTwice(order: SortOrder)
    ensures Toggled(Toggled(order)) == order
  {
  }

  /** The component's own state: the sort order and whether a refresh is showing. */
  class GreetingListView {
    var sortOrder: SortOrder
    var isRefreshing: bool

    /** A mounted list shows the newest greetings first and no refresh. */
    constructor ()
      ensures sortOrder == Newest && !isRefreshing
    {
      sortOrder := Newest;
      isRefreshing := false;
    }

    /** `handleToggleSort`: swaps newest and oldest. */
    method HandleToggleSort()
      modifies this
      ensures sortOrder == Toggled(old(sortOrder)) && sortOrder != old(sortOrder)
      ensures isRefreshing == old(isRefreshing)
    {
      sortOrder := Toggled(sortOrder);
    }

    /** The start of `handleRefresh`: the refresh indicator turns on. */
    method HandleRefresh()
      modifies this
      ensures isRefreshing && sortOrder == old(sortOrder)
    {
      isRefreshing := true;
    }

    /** The end of `handleRefresh`, once the refetch is done: the indicator turns off. */
    method RefreshSettled()
      modifies this
      ensures !isRefreshing && sortOrder == old(sortOrder)
    {
      isRefreshing := false;
    }
  }

  /** The comparator passed to `sort`: negative when `a` goes first,
      positive when `b` does, zero for equal timestamps. */
  function Compare(order: SortOrder, a: Greeting, b: Greeting): (d: int)
    ensures d == 0 <==> a.timestamp == b.timestamp
    ensures order == Newest ==> (d < 0 <==> a.timestamp > b.timestamp)
    ensures order == Oldest ==> (d < 0 <==> a.timestamp < b.timestamp)
  {
    if order == Newest then b.timestamp as int - a.timestamp as int
    else a.timestamp as int - b.timestamp as int
  }

  /** Swapping the arguments negates the comparator. */
  lemma CompareAntisymmetric(order: SortOrder, a: Greeting, b: Greeting)
    ensures Compare(order, a, b) == -Compare(order, b, a)
  {
  }

  /** `a` may stay before `b`: the comparator does not ask to swap them. */
  predicate InOrder(order: SortOrder, a: Greeting, b: Greeting)
    ensures InOrder(order, a, b) <==>
      if order == Newest then a.timestamp >= b.timestamp else a.timestamp <= b.timestamp
  {
    Compare(order, a, b) <= 0
  }

  ghost predicate SortedBy(s: seq<Greeting>, order: SortOrder)
  {
    forall i, j :: 0 <= i < j < |s| ==> InOrder(order, s[i], s[j])
  }

  /** The greetings of `s` posted at time `t`, in their order in `s`. A sort
      is stable when it keeps every such subsequence. */
  function WithTimestamp(s: seq<Greeting>, t: nat): seq<Greeting>
  {
    if s == [] then []
    else (if s[0].timestamp == t then [s[0]] else []) + WithTimestamp(s[1..], t)
  }

  lemma {:induction false} WithTimestampConcat(a: seq<Greeting>, b: seq<Greeting>, t: nat)
    ensures WithTimestamp(a + b, t) == WithTimestamp(a, t) + WithTimestamp(b, t)
  {
    if a == [] {
      assert a + b == b;
    } else {
      var ab := a + b;
      assert ab[0] == a[0] && ab[1..] == a[1..] + b;
      WithTimestampConcat(a[1..], b, t);
      var head := if a[0].timestamp == t then [a[0]] else [];
      assert WithTimestamp(ab, t) == head + WithTimestamp(a[1..] + b, t);
      assert WithTimestamp(a, t) == head + WithTimestamp(a[1..], t);
    }
  }

  lemma SwapKeepsTimestampOrders(s: seq<Greeting>, i: nat)
    requires i + 1 < |s| && s[i].timestamp != s[i + 1].timestamp
    ensures forall t :: WithTimestamp(s[i := s[i + 1]][i + 1 := s[i]], t) == WithTimestamp(s, t)
  {
    forall t
      ensures WithTimestamp(s[i := s[i + 1]][i + 1 := s[i]], t) == WithTimestamp(s, t)
    {
      SwapKeepsTimestampOrder(s, i, t);
    }
  }

  /** Exchanging two neighbours with different timestamps keeps the order
      among the greetings of every timestamp. */
  lemma SwapKeepsTimestampOrder(s: seq<Greeting>, i: nat, t: nat)
    requires i + 1 < |s| && s[i].timestamp != s[i + 1].timestamp
    ensures WithTimestamp(s[i := s[i + 1]][i + 1 := s[i]], t) == WithTimestamp(s, t)
  {
    var x, y, tail := s[i], s[i + 1], s[i + 2..];
    assert s == s[..i] + ([x, y] + tail);
    assert s[i := y][i + 1 := x] == s[..i] + ([y, x] + tail);
    WithTimestampConcat(s[..i], [x, y] + tail, t);
    WithTimestampConcat(s[..i], [y, x] + tail, t);
    WithTimestampConcat([x, y], tail, t);
    WithTimestampConcat([y, x], tail, t);
    assert [x, y][1..] == [y] && [y, x][1..] == [x];
  }

  /** The greetings `a[lo..hi]` are in the comparator's order. */
  ghost predicate SortedRange(a: array<Greeting>, lo: int, hi: int, order: SortOrder)
    reads a
  {
    forall p, q :: lo <= p < q < hi && 0 <= p && q < a.Length ==> InOrder(order, a[p], a[q])
  }

  /** Exchanges two neighbouring greetings of `a` with different
      timestamps; the greetings of every timestamp keep their order. */
  method SwapNeighbours(a: array<Greeting>, i: nat)
    requires i + 1 < a.Length && a[i].timestamp != a[i + 1].timestamp
    modifies a
    ensures a[..] == old(a[..])[i := old(a[i + 1])][i + 1 := old(a[i])]
    ensures multiset(a[..]) == multiset(old(a[..]))
    ensures forall t :: WithTimestamp(a[..], t) == WithTimestamp(old(a[..]), t)
  {
    SwapKeepsTimestampOrders(a[..], i);
    a[i], a[i + 1] := a[i + 1], a[i];
  }

  /** One insertion step: `a[i]` moves down past the greetings that belong
      after it, so the first `i + 1` greetings end up ordered. It moves only
      past greetings with another timestamp, so it is stable. */
  method InsertInto(a: array<Greeting>, i: nat, order: SortOrder)
    requires i < a.Length && SortedRange(a, 0, i, order)
    modifies a
    ensures SortedRange(a, 0, i + 1, order)
    ensures multiset(a[..]) == multiset(old(a[..]))
    ensures forall t :: WithTimestamp(a[..], t) == WithTimestamp(old(a[..]), t)
  {
    var j := i;
    while j > 0 && !InOrder(order, a[j - 1], a[j])
      invariant 0 <= j <= i
      invariant forall p, q :: 0 <= p < q <= i && p != j && q != j ==> InOrder(order, a[p], a[q])
      invariant forall q :: j < q <= i ==> InOrder(order, a[j], a[q])
      invariant multiset(a[..]) == multiset(old(a[..]))
      invariant forall t :: WithTimestamp(a[..], t) == WithTimestamp(old(a[..]), t)
    {
      SwapNeighbours(a, j - 1);
      j := j - 1;
    }
  }

  /** `Array.prototype.sort` with the list's comparator, in place: the array
      ends up ordered, holds the same greetings as before, and greetings
      with equal timestamps keep their order (the sort is stable). */
  method SortInPlace(a: array<Greeting>, order: SortOrder)
    modifies a
    ensures SortedBy(a[..], order)
    ensures multiset(a[..]) == multiset(old(a[..]))
    ensures forall t :: WithTimestamp(a[..], t) == WithTimestamp(old(a[..]), t)
  {
    var i := 0;
    while i < a.Length
      invariant 0 <= i <= a.Length
      invariant SortedRange(a, 0, i, order)
      invariant multiset(a[..]) == multiset(old(a[..]))
      invariant forall t :: WithTimestamp(a[..], t) == WithTimestamp(old(a[..]), t)
    {
      InsertInto(a, i, order);
      i := i + 1;
    }
  }

  /** `sortedGreetings`: a sorted copy of the fetched greetings, or nothing
      before they are fetched. The copy holds exactly the fetched greetings;
      newest first means non-increasing timestamps, oldest first
      non-decreasing ones. */
  method SortedGreetings(fetched: Option<seq<Greeting>>, order: SortOrder) returns (sorted: seq<Greeting>)
    ensures fetched.None? ==> sorted == []
    ensures fetched.Some? ==> |sorted| == |fetched.value| && multiset(sorted) == multiset(fetched.value)
    ensures fetched.Some? ==> forall t :: WithTimestamp(sorted, t) == WithTimestamp(fetched.value, t)
    ensures order == Newest ==>
      forall i, j :: 0 <= i < j < |sorted| ==> sorted[i].timestamp >= sorted[j].timestamp
    ensures order == Oldest ==>
      forall i, j :: 0 <= i < j < |sorted| ==> sorted[i].timestamp <= sorted[j].timestamp
  {
    if fetched.None? {
      return [];
    }
    var s := fetched.value;
    var a := new Greeting[|s|](k requires 0 <= k < |s| => s[k]);
    assert a[..] == s;
    SortInPlace(a, order);
    sorted := a[..];
    assert |sorted| == |multiset(sorted)| == |multiset(s)| == |s|;
  }

  /** The palette entry of the card at `position`: always a valid index,
      and the first cards take the palette in order. */
  function ColorIndex(position: nat): (r: nat)
    ensures r < |GRADIENT_COLORS|
    ensures position < |GRADIENT_COLORS| ==> r == position
  {
    position % |GRADIENT_COLORS|
  }

  /** The gradient drawn for the card at `position`. */
  function AvatarGradient(position: nat): (c: string)
    ensures c in GRADIENT_COLORS
  {
    GRADIENT_COLORS[ColorIndex(position)]
  }

  /** Neighbouring cards never share a colour, and colours repeat every
      `|GRADIENT_COLORS|` cards. */
  lemma ColorIndexCycles(position: nat)
    ensures ColorIndex(position) != ColorIndex(position + 1)
    ensures ColorIndex(position + |GRADIENT_COLORS|) == ColorIndex(position)
  {
  }

  /** The abbreviated sender on a card: its first six characters, "...",
      and its last four (all of it, on either side, when it is shorter). */
  function ShortAddress(address: string): (r: string)
    ensures |r| == Min(6, |address|) + 3 + Min(4, |address|)
    ensures r[..Min(6, |address|)] == address[..Min(6, |address|)]
    ensures r[Min(6, |address|)..Min(6, |address|) + 3] == "..."
    ensures r[|r| - Min(4, |address|)..] == address[|address| - Min(4, |address|)..]
    ensures |address| == 42 ==> |r| == 13
  {
    SliceFirst(address, 6) + "..." + SliceLast(address, 4)
  }

  /** How long ago a greeting was posted, as the card shows it. */
  datatype RelativeTime =
    | JustNow
    | MinutesAgo(minutes: nat)
    | HoursAgo(hours: nat)
    | DaysAgo(days: nat)
      /** A week or more: the locale's date for this many milliseconds since the epoch. */
    | LocaleDate(millis: int)

  /** `formatRelativeTime`, with the current time in seconds as a parameter.
      Each bucket covers one range of elapsed seconds (a future timestamp
      reads "just now"), and its count is the number of whole units elapsed. */
  function FormatRelativeTime(timestamp: int, now: int): (r: RelativeTime)
    ensures r.JustNow? <==> now - timestamp < 60
    ensures r.MinutesAgo? <==> 60 <= now - timestamp < 3600
    ensures r.HoursAgo? <==> 3600 <= now - timestamp < 86400
    ensures r.DaysAgo? <==> 86400 <= now - timestamp < 604800
    ensures r.LocaleDate? <==> 604800 <= now - timestamp
    ensures r.MinutesAgo? ==>
      1 <= r.minutes <= 59 && r.minutes * 60 <= now - timestamp < (r.minutes + 1) * 60
    ensures r.HoursAgo? ==>
      1 <= r.hours <= 23 && r.hours * 3600 <= now - timestamp < (r.hours + 1) * 3600
    ensures r.DaysAgo? ==>
      1 <= r.days <= 6 && r.days * 86400 <= now - timestamp < (r.days + 1) * 86400
    ensures r.LocaleDate? ==> r.millis == timestamp * 1000
  {
    var diff := now - timestamp;
    if diff < 60 then JustNow
    else if diff < 3600 then MinutesAgo(diff / 60)
    else if diff < 86400 then HoursAgo(diff / 3600)
    else if diff < 604800 then DaysAgo(diff / 86400)
    else LocaleDate(timestamp * 1000)
  }

  /** `text` is the decimal numeral of `n`, without leading zeros, followed by `unit`. */
  ghost predicate ShowsCount(text: string, n: nat, unit: string)
  {
    |unit| < |text| && text[|text| - |unit|..] == unit
    && var digits := text[..|text| - |unit|];
       AllDigits(digits) && DecimalValue(digits) == n && (digits[0] == '0' ==> n == 0)
  }

  /** The caption of a count of units, as the template literals write it. */
  function CountCaption(n: nat, unit: string): (text: string)
    ensures ShowsCount(text, n, unit)
  {
    DecimalRoundTrip(n);
    var digits := DecimalString(n);
    assert (digits + unit)[..|digits|] == digits;
    assert (digits + unit)[|digits|..] == unit;
    digits + unit
  }

  /** The text of a relative time: "just now", or the bucket's count in
      decimal followed by its unit; the locale's date text is not modelled. */
  function Caption(r: RelativeTime): (c: Option<string>)
    ensures c.None? <==> r.LocaleDate?
    ensures c.Some? ==> c.value != []
    ensures r.JustNow? ==> c == Some("just now")
    ensures r.MinutesAgo? ==> ShowsCount(c.value, r.minutes, " minutes ago")
    ensures r.HoursAgo? ==> ShowsCount(c.value, r.hours, " hours ago")
    ensures r.DaysAgo? ==> ShowsCount(c.value, r.days, " days ago")
  {
    match r
    case JustNow => Some("just now")
    case MinutesAgo(m) => Some(CountCaption(m, " minutes ago"))
    case HoursAgo(h) => Some(CountCaption(h, " hours ago"))
    case DaysAgo(d) => Some(CountCaption(d, " days ago"))
    case LocaleDate(_) => None
  }

  function Rank(r: RelativeTime): nat
  {
    match r
    case JustNow => 0
    case MinutesAgo(_) => 1
    case HoursAgo(_) => 2
    case DaysAgo(_) => 3
    case LocaleDate(_) => 4
  }

  /** Whether `a` reads as at least as old as `b`: a coarser bucket, or the
      same bucket with at least as many units (an earlier date). */
  predicate ReadsAtLeastAsOld(a: RelativeTime, b: RelativeTime)
  {
    Rank(a) > Rank(b)
    || (Rank(a) == Rank(b) && match (a, b)
        case (MinutesAgo(x), MinutesAgo(y)) => x >= y
        case (HoursAgo(x), HoursAgo(y)) => x >= y
        case (DaysAgo(x), DaysAgo(y)) => x >= y
        case (LocaleDate(x), LocaleDate(y)) => x <= y
        case _ => true)
  }

  /** A greeting posted earlier never reads as newer than one posted later. */
  lemma EarlierReadsOlder(t1: int, t2: int, now: int)
    requires t1 <= t2
    ensures ReadsAtLeastAsOld(FormatRelativeTime(t1, now), FormatRelativeTime(t2, now))
  {
    var a, b := FormatRelativeTime(t1, now), FormatRelativeTime(t2, now);
    if a.MinutesAgo? && b.MinutesAgo? {
      assert a.minutes >= b.minutes;
    }
  }

  /** In newest-first order, the cards' relative times read from youngest
      to oldest down the list. */
  lemma NewestFirstReadsYoungestFirst(sorted: seq<Greeting>, now: int)
    requires forall i, j :: 0 <= i < j < |sorted| ==> sorted[i].timestamp >= sorted[j].timestamp
    ensures forall i, j :: 0 <= i < j < |sorted| ==>
      ReadsAtLeastAsOld(FormatRelativeTime(sorted[j].timestamp, now), FormatRelativeTime(sorted[i].timestamp, now))
  {
    forall i, j | 0 <= i < j < |sorted|
      ensures ReadsAtLeastAsOld(FormatRelativeTime(sorted[j].timestamp, now), FormatRelativeTime(sorted[i].timestamp, now))
    {
      EarlierReadsOlder(sorted[j].timestamp, sorted[i].timestamp, now);
    }
  }
}
