/**
  The bounded feed: an atomic counter hands out sequence numbers, and a capped
  log is pushed to under a different lock. Posts one at a time give an exact
  window; overlapping posts are two steps, with anything in between.
 */
module Mesh {
  import opened Bytes

  const MAX_LOG_LEN: nat := 2_000
  const OPS_CHANNEL: string := "#handoff-ops"

  datatype EventKind = Intent | Restriction | Payment | Credential | Settlement | Info

  /** The wall-clock text is display only and left out. */
  datatype MeshMessage = MeshMessage(number: U64, channel: string, sender: string, kind: EventKind, body: string)

  datatype Post = Post(sender: string, kind: EventKind, body: string)

  function MessageFor(number: U64, p: Post): MeshMessage {
    MeshMessage(number, OPS_CHANNEL, p.sender, p.kind, p.body)
  }

  /** The line says who posted what on the operations channel, under the n-th number of a `u64` counter. */
  predicate Shows(m: MeshMessage, n: nat, p: Post) {
    m.number == n % 0x1_0000_0000_0000_0000 && m.channel == "#handoff-ops"
    && m.sender == p.sender && m.kind == p.kind && m.body == p.body
  }

  /** `fetch_add(1)` on a `u64`. */
  function NextNumber(n: U64): U64 {
    (n + 1) % TWO_TO_THE_64
  }

  /** The last `w` elements, or all if there are fewer. */
  function Last<T>(s: seq<T>, w: nat): (r: seq<T>)
    ensures |r| <= w
  {
    if |s| > w then s[|s| - w..] else s
  }

  /** The last `MAX_LOG_LEN` elements. */
  function Window<T>(s: seq<T>): (r: seq<T>)
    ensures |r| <= MAX_LOG_LEN
  {
    Last(s, MAX_LOG_LEN)
  }

  class MeshBus {
    var number: U64
    var log: seq<MeshMessage>

    constructor ()
      ensures number == 0 && log == []
    {
      number, log := 0, [];
    }

    method Post(p: Post) returns (msg: MeshMessage)
      modifies this
      ensures msg == MessageFor(old(number), p) && Shows(msg, old(number), p)
      ensures number == NextNumber(old(number)) == (old(number) + 1) % 0x1_0000_0000_0000_0000
      ensures log == Window(old(log) + [msg])
      ensures |old(log)| < 2_000 ==> log == old(log) + [msg]
      ensures |old(log)| >= 2_000 ==> log == old(log)[|old(log)| - 1_999..] + [msg]
    {
      msg := MessageFor(number, p);
      number := NextNumber(number);
      Append(msg);
    }

    /** The locked section: push, then drain the excess from the front. */
    method Append(msg: MeshMessage)
      modifies this`log
      ensures log == Window(old(log) + [msg])
    {
      log := log + [msg];
      if |log| > MAX_LOG_LEN {
        var excess := |log| - MAX_LOG_LEN;
        log := log[excess..];
      }
    }
  }

  // ----- Posts that do not overlap

  datatype Bus = Bus(number: U64, log: seq<MeshMessage>)

  function PostAll(bus: Bus, posts: seq<Post>): Bus {
    if posts == [] then bus
    else
      var before := PostAll(bus, posts[..|posts| - 1]);
      Bus(NextNumber(before.number), Window(before.log + [MessageFor(before.number, posts[|posts| - 1])]))
  }

  lemma PostOne(bus: Bus, p: Post)
    ensures PostAll(bus, [p]) == Bus(NextNumber(bus.number), Window(bus.log + [MessageFor(bus.number, p)]))
  {
    assert [p][..0] == [];
  }

  lemma PostTwo(bus: Bus, p: Post, q: Post)
    ensures var one := PostAll(bus, [p]);
      && one == Bus(NextNumber(bus.number), Window(bus.log + [MessageFor(bus.number, p)]))
      && PostAll(bus, [p, q]) == Bus(NextNumber(one.number), Window(one.log + [MessageFor(one.number, q)]))
  {
    PostOne(bus, p);
    assert [p, q][..1] == [p];
  }

  /** The messages of the posts, numbered from zero modulo 2^64. */
  function Numbered(posts: seq<Post>): (ms: seq<MeshMessage>)
    ensures |ms| == |posts|
    ensures forall i | 0 <= i < |ms| :: ms[i] == MessageFor(i % TWO_TO_THE_64, posts[i])
  {
    if posts == [] then []
    else
      var n := |posts| - 1;
      Numbered(posts[..n]) + [MessageFor(n % TWO_TO_THE_64, posts[n])]
  }

  lemma WindowOfAppend<T>(s: seq<T>, x: T)
    ensures Window(Window(s) + [x]) == Window(s + [x])
  {
  }

  /** After n posts the log is exactly the last min(n, 2000) of them, numbered in order. */
  lemma {:induction false} FeedWindow(posts: seq<Post>)
    ensures var bus := PostAll(Bus(0, []), posts);
      bus.number == |posts| % TWO_TO_THE_64 && bus.log == Window(Numbered(posts))
  {
    if posts != [] {
      var n := |posts| - 1;
      FeedWindow(posts[..n]);
      WindowOfAppend(Numbered(posts[..n]), MessageFor(n % TWO_TO_THE_64, posts[n]));
      NextOfRemainder(n);
    }
  }

  /** The lines show the posts from number `first` on. */
  predicate ShowFrom(log: seq<MeshMessage>, first: nat, posts: seq<Post>) {
    first + |log| == |posts| && forall j | 0 <= j < |log| :: Shows(log[j], first + j, posts[first + j])
  }

  /** What the log is after these posts, line by line: the last min(n, 2000), with the numbers they took. */
  predicate Retains(bus: Bus, posts: seq<Post>) {
    && bus.number == |posts| % 0x1_0000_0000_0000_0000
    && |bus.log| == (if |posts| < 2_000 then |posts| else 2_000)
    && ShowFrom(bus.log, |posts| - |bus.log|, posts)
  }

  lemma WindowIsSuffix<T>(s: seq<T>, kept: seq<T>) returns (first: nat)
    requires kept == Window(s)
    ensures |kept| == (if |s| < 2_000 then |s| else 2_000) && first + |kept| == |s|
    ensures forall j | 0 <= j < |kept| :: kept[j] == s[first + j]
  {
    first := |s| - |kept|;
  }

  lemma NumberedShows(posts: seq<Post>, ms: seq<MeshMessage>, i: nat)
    requires ms == Numbered(posts) && i < |posts|
    ensures Shows(ms[i], i, posts[i])
  {
  }

  lemma LineShows(posts: seq<Post>, ms: seq<MeshMessage>, m: MeshMessage, i: nat)
    requires ms == Numbered(posts) && i < |posts| && m == ms[i]
    ensures Shows(m, i, posts[i])
  {
    NumberedShows(posts, ms, i);
  }

  lemma SuffixShows(posts: seq<Post>, ms: seq<MeshMessage>, log: seq<MeshMessage>, first: nat)
    requires ms == Numbered(posts) && first + |log| == |posts|
    requires forall j | 0 <= j < |log| :: log[j] == ms[first + j]
    ensures ShowFrom(log, first, posts)
  {
    forall j | 0 <= j < |log| ensures Shows(log[j], first + j, posts[first + j]) {
      LineShows(posts, ms, log[j], first + j);
    }
  }

  lemma {:induction false} WindowRetains(bus: Bus, posts: seq<Post>, ms: seq<MeshMessage>)
    requires ms == Numbered(posts) && bus.number == |posts| % 0x1_0000_0000_0000_0000 && bus.log == Window(ms)
    ensures Retains(bus, posts)
  {
    var first := WindowIsSuffix(ms, bus.log);
    SuffixShows(posts, ms, bus.log, first);
    assert first == |posts| - |bus.log|;
  }

  lemma {:induction false} FeedIsNumbered(posts: seq<Post>)
    ensures Retains(PostAll(Bus(0, []), posts), posts)
  {
    FeedWindow(posts);
    WindowRetains(PostAll(Bus(0, []), posts), posts, Numbered(posts));
  }

  /** What a reader goes by: the lowest number in a non-empty log is not zero. */
  predicate LowestNonzero(log: seq<MeshMessage>) {
    log != [] && forall i | 0 <= i < |log| :: log[i].number != 0
  }

  lemma RemainderIs(x: nat, m: nat, q: nat, r: nat)
    requires x == q * m + r && r < m
    ensures x % m == r
  {
    QuotientIs(x, m, q, r);
    assert x == m * (x / m) + x % m;
  }

  lemma PastMultiple(k: nat, d: nat, m: nat)
    requires d < m && k % m == 0
    ensures (k + d) % m == d
  {
    assert k == k / m * m;
    RemainderIs(k + d, m, k / m, d);
  }

  lemma MultipleBelow(x: nat, m: nat)
    requires m > 0
    ensures x % m <= x && (x - x % m) % m == 0
  {
    assert x == x / m * m + x % m;
    RemainderIs(x - x % m, m, x / m, 0);
  }

  /** Some number among the last `w` before `n` is a multiple of `m` exactly when n - 1 is not far past one. */
  lemma MultipleInWindow(n: nat, w: nat, m: nat)
    requires 0 < w <= n && w < m
    ensures (exists k: nat :: n - w <= k < n && k % m == 0) <==> (n - 1) % m < w
  {
    if (n - 1) % m < w {
      MultipleBelow(n - 1, m);
      var k: nat := n - 1 - (n - 1) % m;
      assert k % m == 0;
    }
    forall k: nat | n - w <= k < n && k % m == 0 ensures (n - 1) % m < w {
      PastMultiple(k, n - 1 - k, m);
    }
  }

  lemma {:induction false} NumberAt(posts: seq<Post>, log: seq<MeshMessage>, k: nat)
    requires log == PostAll(Bus(0, []), posts).log && |posts| - |log| <= k < |posts|
    ensures |log| <= |posts| && log[k - (|posts| - |log|)].number == k % TWO_TO_THE_64
  {
    FeedIsNumbered(posts);
    assert Shows(log[k - (|posts| - |log|)], k, posts[k]);
  }

  lemma {:induction false} LowestExactly(posts: seq<Post>, log: seq<MeshMessage>)
    requires log == PostAll(Bus(0, []), posts).log && posts != []
    ensures 0 < |log| <= |posts|
    ensures LowestNonzero(log) <==> !exists k: nat :: |posts| - |log| <= k < |posts| && k % TWO_TO_THE_64 == 0
  {
    FeedIsNumbered(posts);
    if k: nat :| |posts| - |log| <= k < |posts| && k % TWO_TO_THE_64 == 0 {
      NumberAt(posts, log, k);
    } else {
      forall i | 0 <= i < |log| ensures log[i].number != 0 {
        var k: nat := |posts| - |log| + i;
        NumberAt(posts, log, k);
        assert k % TWO_TO_THE_64 != 0;
      }
    }
  }

  /**
    With posts one at a time a reader's test for missing lines is right exactly
    when none are missing or the counter is not in its first 2000 numbers again.
   */
  lemma {:induction false} ReaderTestExactly(posts: seq<Post>)
    requires posts != []
    ensures (LowestNonzero(PostAll(Bus(0, []), posts).log) <==> |posts| > 2_000)
       <==> |posts| <= 2_000 || (|posts| - 1) % 0x1_0000_0000_0000_0000 >= 2_000
  {
    var log := PostAll(Bus(0, []), posts).log;
    FeedIsNumbered(posts);
    LowestExactly(posts, log);
    MultipleInWindow(|posts|, |log|, TWO_TO_THE_64);
    if |posts| <= 2_000 {
      RemainderIs(|posts| - 1, TWO_TO_THE_64, 0, |posts| - 1);
    }
  }

  lemma NextOfRemainder(n: nat)
    ensures NextNumber(n % TWO_TO_THE_64) == (n + 1) % TWO_TO_THE_64
  {
  }

  // ----- Posts that overlap

  /** Tickets taken but not yet pushed, the log, and what fell off its front. */
  datatype Shared = Shared(issued: nat, inFlight: seq<nat>, log: seq<nat>, evicted: seq<nat>)
  {
    /** Everything pushed so far, in push order. */
    function Pushed(): seq<nat> {
      evicted + log
    }
  }

  const QUIET: Shared := Shared(0, [], [], [])

  /** `Take` is the counter step of some post; `Push(k)` is the log step of the k-th oldest one in flight. */
  datatype Step = Take | Push(k: nat)

  predicate Enabled(s: Shared, step: Step) {
    step.Push? ==> step.k < |s.inFlight|
  }

  function Without<T>(s: seq<T>, k: nat): (r: seq<T>)
    requires k < |s|
    ensures |r| == |s| - 1
    ensures forall i | 0 <= i < |r| :: r[i] == s[if i < k then i else i + 1]
  {
    s[..k] + s[k + 1..]
  }

  function Apply(s: Shared, step: Step): Shared
    requires Enabled(s, step)
  {
    match step
    case Take => s.(issued := s.issued + 1, inFlight := s.inFlight + [s.issued])
    case Push(k) =>
      var log := s.log + [s.inFlight[k]];
      var kept := Window(log);
      s.(inFlight := Without(s.inFlight, k), log := kept, evicted := s.evicted + log[..|log| - |kept|])
  }

  /** Each step is enabled where it happens. */
  predicate Possible(steps: seq<Step>)
    decreases |steps|, 0
  {
    steps == [] || (var n := |steps| - 1; Possible(steps[..n]) && Enabled(After(steps[..n]), steps[n]))
  }

  /** The state a run ends in. */
  function After(steps: seq<Step>): Shared
    requires Possible(steps)
    decreases |steps|, 1
  {
    if steps == [] then QUIET else Apply(After(steps[..|steps| - 1]), steps[|steps| - 1])
  }

  predicate Ascending(s: seq<nat>) {
    forall i, j | 0 <= i < j < |s| :: s[i] < s[j]
  }

  /** The numbers 0, 1, .., n - 1. */
  function UpTo(n: nat): (s: seq<nat>)
    ensures |s| == n && forall i | 0 <= i < n :: s[i] == i
  {
    if n == 0 then [] else UpTo(n - 1) + [n - 1]
  }

  /** No number is lost or doubled. */
  ghost predicate Counted(s: Shared) {
    multiset(s.inFlight) + (multiset(s.log) + multiset(s.evicted)) == multiset(UpTo(s.issued))
  }

  /** Tickets in flight are kept oldest first, and nothing unissued exists. */
  predicate Issued(s: Shared) {
    && Ascending(s.inFlight)
    && (forall i | 0 <= i < |s.inFlight| :: s.inFlight[i] < s.issued)
    && (forall i | 0 <= i < |s.Pushed()| :: s.Pushed()[i] < s.issued)
  }

  /** The log never exceeds its cap, and evicts only when full. */
  predicate Capped(s: Shared) {
    |s.log| <= MAX_LOG_LEN && (s.evicted != [] ==> |s.log| == MAX_LOG_LEN)
  }

  lemma WindowSplit<T>(s: seq<T>)
    ensures s[..|s| - |Window(s)|] + Window(s) == s
  {
  }

  lemma Associate<T>(a: seq<T>, b: seq<T>, c: seq<T>)
    ensures (a + b) + c == a + (b + c)
  {
  }

  lemma PushAppends(s: Shared, k: nat)
    requires k < |s.inFlight|
    ensures Apply(s, Push(k)).Pushed() == s.Pushed() + [s.inFlight[k]]
  {
    var log := s.log + [s.inFlight[k]];
    WindowSplit(log);
    Associate(s.evicted, log[..|log| - |Window(log)|], Window(log));
    Associate(s.evicted, s.log, [s.inFlight[k]]);
  }

  lemma WithoutOne(s: seq<nat>, k: nat)
    requires k < |s|
    ensures multiset(Without(s, k)) + multiset{s[k]} == multiset(s)
  {
    assert s == s[..k] + [s[k]] + s[k + 1..];
  }

  lemma PushMovesOne(s: Shared, k: nat)
    requires k < |s.inFlight|
    ensures var t := Apply(s, Push(k));
      && multiset(t.inFlight) + multiset{s.inFlight[k]} == multiset(s.inFlight)
      && multiset(t.log) + multiset(t.evicted) == multiset(s.log) + multiset(s.evicted) + multiset{s.inFlight[k]}
  {
    var t := Apply(s, Push(k));
    WithoutOne(s.inFlight, k);
    PushAppends(s, k);
    assert multiset(t.Pushed()) == multiset(t.log) + multiset(t.evicted);
    assert multiset(s.Pushed()) == multiset(s.log) + multiset(s.evicted);
  }

  lemma MovedOne(a: multiset<nat>, b: multiset<nat>, a': multiset<nat>, b': multiset<nat>, x: nat)
    requires a' + multiset{x} == a && b' == b + multiset{x}
    ensures a' + b' == a + b
  {
  }

  lemma StepCounted(s: Shared, step: Step)
    requires Counted(s) && Enabled(s, step)
    ensures Counted(Apply(s, step))
  {
    var t := Apply(s, step);
    match step
    case Take =>
      assert UpTo(t.issued) == UpTo(s.issued) + [s.issued];
      MovedOne(multiset(UpTo(t.issued)), multiset(s.log) + multiset(s.evicted),
               multiset(UpTo(s.issued)), multiset(s.log) + multiset(s.evicted) + multiset{s.issued}, s.issued);
    case Push(k) =>
      PushMovesOne(s, k);
      MovedOne(multiset(s.inFlight), multiset(s.log) + multiset(s.evicted),
               multiset(t.inFlight), multiset(t.log) + multiset(t.evicted), s.inFlight[k]);
  }

  lemma StepIssued(s: Shared, step: Step)
    requires Issued(s) && Enabled(s, step)
    ensures Issued(Apply(s, step))
  {
    var t := Apply(s, step);
    match step
    case Take =>
      assert t.Pushed() == s.Pushed();
    case Push(k) =>
      PushAppends(s, k);
      assert forall i | 0 <= i < |t.Pushed()| ::
        t.Pushed()[i] == if i < |s.Pushed()| then s.Pushed()[i] else s.inFlight[k];
  }

  lemma StepWindow(s: Shared, step: Step)
    requires Enabled(s, step) && Capped(s) && s.log == Window(s.Pushed())
    ensures Capped(Apply(s, step)) && Apply(s, step).log == Window(Apply(s, step).Pushed())
  {
    if step.Push? {
      PushAppends(s, step.k);
      WindowOfAppend(s.Pushed(), s.inFlight[step.k]);
    }
  }

  /**
    In every interleaving each issued number is in flight, logged or evicted,
    exactly once, and the log never exceeds its cap.
   */
  lemma {:induction false} EveryRunAccounted(steps: seq<Step>)
    requires Possible(steps)
    ensures Counted(After(steps)) && Issued(After(steps)) && Capped(After(steps))
    ensures After(steps).log == Window(After(steps).Pushed())
    decreases |steps|
  {
    if steps != [] {
      var n := |steps| - 1;
      EveryRunAccounted(steps[..n]);
      StepCounted(After(steps[..n]), steps[n]);
      StepIssued(After(steps[..n]), steps[n]);
      StepWindow(After(steps[..n]), steps[n]);
    }
  }

  // ----- The order of the feed

  /** Each of the last `w` pushes took the oldest ticket in flight: none overtook another. */
  predicate PushesOldest(steps: seq<Step>, w: nat)
    decreases |steps|
  {
    if steps == [] || w == 0 then true
    else
      var n := |steps| - 1;
      if steps[n].Push? then steps[n].k == 0 && PushesOldest(steps[..n], w - 1)
      else PushesOldest(steps[..n], w)
  }

  /** Pushed in number order, and everything in flight is later still. */
  predicate Orderly(recent: seq<nat>, inFlight: seq<nat>) {
    && Ascending(recent)
    && forall i, j | 0 <= i < |recent| && 0 <= j < |inFlight| :: recent[i] < inFlight[j]
  }

  lemma TakeOrderly(recent: seq<nat>, inFlight: seq<nat>, n: nat)
    requires forall i | 0 <= i < |recent| :: recent[i] < n
    ensures Orderly(recent, inFlight + [n]) <==> Orderly(recent, inFlight)
  {
    assert forall j | 0 <= j < |inFlight| :: (inFlight + [n])[j] == inFlight[j];
  }

  lemma OldestPushed(recent: seq<nat>, inFlight: seq<nat>, after: seq<nat>, rest: seq<nat>)
    requires inFlight != [] && Ascending(inFlight) && Orderly(recent, inFlight)
    requires after == recent + [inFlight[0]] && rest == Without(inFlight, 0)
    ensures Orderly(after, rest)
  {
    assert forall j | 0 <= j < |rest| :: rest[j] == inFlight[j + 1];
  }

  lemma LaterPushed(recent: seq<nat>, inFlight: seq<nat>, k: nat, after: seq<nat>, rest: seq<nat>)
    requires 0 < k < |inFlight| && Ascending(inFlight)
    requires after == recent + [inFlight[k]] && rest == Without(inFlight, k)
    ensures !Orderly(after, rest)
  {
    assert after[|recent|] == inFlight[k];
    assert rest[0] == inFlight[0] < inFlight[k];
  }

  lemma OrderlyBefore(recent: seq<nat>, inFlight: seq<nat>, after: seq<nat>, rest: seq<nat>)
    requires inFlight != [] && Orderly(after, rest)
    requires after == recent + [inFlight[0]] && rest == Without(inFlight, 0)
    ensures Orderly(recent, inFlight)
  {
    var n := |recent|;
    assert after[n] == inFlight[0];
    assert forall i | 0 <= i < n :: after[i] == recent[i];
    assert forall j | 0 < j < |inFlight| :: rest[j - 1] == inFlight[j];
  }

  lemma PushOrderly(recent: seq<nat>, inFlight: seq<nat>, k: nat, after: seq<nat>, rest: seq<nat>)
    requires k < |inFlight| && Ascending(inFlight)
    requires after == recent + [inFlight[k]] && rest == Without(inFlight, k)
    ensures Orderly(after, rest) <==> Orderly(recent, inFlight) && k == 0
  {
    if k > 0 {
      LaterPushed(recent, inFlight, k, after, rest);
    } else if Orderly(recent, inFlight) {
      OldestPushed(recent, inFlight, after, rest);
    } else if Orderly(after, rest) {
      OrderlyBefore(recent, inFlight, after, rest);
    }
  }

  lemma LastOfAppend<T>(s: seq<T>, x: T, w: nat)
    requires w > 0
    ensures Last(s + [x], w) == Last(s, w - 1) + [x]
  {
  }

  lemma LastBelow(s: seq<nat>, w: nat, n: nat)
    requires forall i | 0 <= i < |s| :: s[i] < n
    ensures forall i | 0 <= i < |Last(s, w)| :: Last(s, w)[i] < n
  {
  }

  /** The last `w` pushes are in order, and before all in flight. */
  predicate RecentInOrder(s: Shared, w: nat) {
    Orderly(Last(s.Pushed(), w), s.inFlight)
  }

  lemma TakeKeepsOrder(s: Shared, w: nat)
    requires Issued(s)
    ensures RecentInOrder(Apply(s, Take), w) == RecentInOrder(s, w)
  {
    LastBelow(s.Pushed(), w, s.issued);
    TakeOrderly(Last(s.Pushed(), w), s.inFlight, s.issued);
    assert Apply(s, Take).Pushed() == s.Pushed();
  }

  lemma PushAndOrder(s: Shared, k: nat, w: nat)
    requires Issued(s) && k < |s.inFlight| && w > 0
    ensures RecentInOrder(Apply(s, Push(k)), w) == (RecentInOrder(s, w - 1) && k == 0)
  {
    var t := Apply(s, Push(k));
    PushAppends(s, k);
    LastOfAppend(s.Pushed(), s.inFlight[k], w);
    PushOrderly(Last(s.Pushed(), w - 1), s.inFlight, k, Last(t.Pushed(), w), t.inFlight);
  }

  lemma NothingRecent(s: Shared, w: nat)
    requires w == 0 || s.Pushed() == []
    ensures RecentInOrder(s, w)
  {
    assert Last(s.Pushed(), w) == [];
  }

  lemma AfterTake(before: seq<Step>, steps: seq<Step>, w: nat)
    requires Possible(steps) && Possible(before) && steps == before + [Take] && w > 0
    requires RecentInOrder(After(before), w) == PushesOldest(before, w)
    ensures RecentInOrder(After(steps), w) == PushesOldest(steps, w)
  {
    EveryRunAccounted(before);
    OneMore(before, Take);
    TakeKeepsOrder(After(before), w);
    assert steps[..|steps| - 1] == before;
  }

  lemma AfterPush(before: seq<Step>, k: nat, steps: seq<Step>, w: nat)
    requires Possible(steps) && Possible(before) && steps == before + [Push(k)] && w > 0
    requires RecentInOrder(After(before), w - 1) == PushesOldest(before, w - 1)
    ensures RecentInOrder(After(steps), w) == PushesOldest(steps, w)
  {
    assert steps[..|steps| - 1] == before;
    EveryRunAccounted(before);
    OneMore(before, Push(k));
    PushAndOrder(After(before), k, w);
  }

  lemma {:induction false} RecentOrder(steps: seq<Step>, w: nat)
    requires Possible(steps)
    ensures RecentInOrder(After(steps), w) == PushesOldest(steps, w)
    decreases |steps|
  {
    if steps == [] || w == 0 {
      assert PushesOldest(steps, w);
      NothingRecent(After(steps), w);
    } else {
      var n := |steps| - 1;
      var before := steps[..n];
      assert steps == before + [steps[n]];
      match steps[n]
      case Take =>
        RecentOrder(before, w);
        AfterTake(before, steps, w);
      case Push(k) =>
        RecentOrder(before, w - 1);
        AfterPush(before, k, steps, w);
    }
  }

  /**
    Once every post has finished, the feed is in number order exactly when none of
    the pushes it still holds took a later ticket than the oldest in flight. What
    was evicted no longer matters.
   */
  lemma FeedInOrderExactly(steps: seq<Step>)
    requires Possible(steps) && After(steps).inFlight == []
    ensures Ascending(After(steps).log) <==> PushesOldest(steps, |After(steps).log|)
  {
    EveryRunAccounted(steps);
    var log, pushed := After(steps).log, After(steps).Pushed();
    RecentOrder(steps, |log|);
    assert Last(pushed, |log|) == log;
  }

  /** Everything ever pushed, evicted lines included, is in number order exactly when no push overtook another. */
  lemma AllPushedInOrderExactly(steps: seq<Step>)
    requires Possible(steps) && After(steps).inFlight == []
    ensures Ascending(After(steps).Pushed()) <==> PushesOldest(steps, |steps|)
  {
    FewerPushesThanSteps(steps);
    RecentOrder(steps, |steps|);
  }

  lemma {:induction false} FewerPushesThanSteps(steps: seq<Step>)
    requires Possible(steps)
    ensures |After(steps).Pushed()| <= |steps|
    decreases |steps|
  {
    if steps != [] {
      var n := |steps| - 1;
      FewerPushesThanSteps(steps[..n]);
      if steps[n].Push? {
        PushAppends(After(steps[..n]), steps[n].k);
      }
    }
  }

  lemma OneMore(steps: seq<Step>, step: Step)
    requires Possible(steps) && Enabled(After(steps), step)
    ensures Possible(steps + [step]) && After(steps + [step]) == Apply(After(steps), step)
  {
    assert (steps + [step])[..|steps|] == steps;
  }

  lemma TwoTaken()
    ensures Possible([Take, Take]) && After([Take, Take]) == Shared(2, [0, 1], [], [])
  {
    OneMore([], Take);
    OneMore([Take], Take);
    assert [] + [Take] == [Take] && [Take] + [Take] == [Take, Take];
  }

  lemma LaterFirst()
    ensures var steps := [Take, Take, Push(1)]; Possible(steps) && After(steps) == Shared(2, [0], [1], [])
  {
    TwoTaken();
    OneMore([Take, Take], Push(1));
    assert [Take, Take] + [Push(1)] == [Take, Take, Push(1)];
    assert Without([0, 1], 1) == [0];
  }

  /** Two overlapping posts are enough: the later number can be logged first. */
  lemma OvertakingHappens()
    ensures var steps := [Take, Take, Push(1), Push(0)]; Possible(steps) && After(steps).log == [1, 0]
  {
    LaterFirst();
    OneMore([Take, Take, Push(1)], Push(0));
    assert [Take, Take, Push(1)] + [Push(0)] == [Take, Take, Push(1), Push(0)];
    assert [1] + [0] == [1, 0];
  }

  // ----- Whether a reader can tell that lines are missing

  lemma {:induction false} UpToOnce(n: nat, x: nat)
    ensures multiset(UpTo(n))[x] <= 1 && (n <= x ==> multiset(UpTo(n))[x] == 0)
  {
    if n > 0 {
      UpToOnce(n - 1, x);
    }
  }

  lemma TicketCount(s: Shared)
    requires Counted(s)
    ensures |s.inFlight| + |s.log| + |s.evicted| == s.issued
  {
    assert |multiset(UpTo(s.issued))| == s.issued;
    assert |multiset(s.inFlight) + (multiset(s.log) + multiset(s.evicted))|
        == |s.inFlight| + (|s.log| + |s.evicted|);
  }

  lemma NotBoth(s: Shared, x: nat)
    requires Counted(s)
    ensures !(x in s.log && x in s.evicted)
  {
    UpToOnce(s.issued, x);
    assert multiset(s.inFlight)[x] + (multiset(s.log)[x] + multiset(s.evicted)[x]) == multiset(UpTo(s.issued))[x];
  }

  /** A reader of a non-empty log takes a lowest number other than 0 to mean that lines were evicted, and is right. */
  predicate GapTest(s: Shared) {
    s.log != [] ==> (0 !in s.log <==> s.evicted != [])
  }

  /** The place, among the tickets in flight, of the run's first push, if it has one. */
  function FirstPush(steps: seq<Step>): (k: int)
    ensures k >= -1
  {
    if steps == [] then -1
    else
      var n := |steps| - 1;
      if FirstPush(steps[..n]) >= 0 then FirstPush(steps[..n])
      else if steps[n].Push? then steps[n].k
      else -1
  }

  /** Until the first push every ticket is in flight; after it the first line pushed stays the first. */
  predicate Started(s: Shared, first: int) {
    if first < 0 then s.Pushed() == [] && s.inFlight == UpTo(s.issued)
    else s.Pushed() != [] && s.Pushed()[0] == first
  }

  lemma StepStarted(s: Shared, step: Step, first: int, next: int)
    requires Enabled(s, step) && Started(s, first)
    requires next == if first >= 0 then first else if step.Push? then step.k else -1
    ensures Started(Apply(s, step), next)
  {
    if step.Push? {
      PushAppends(s, step.k);
    } else {
      assert Apply(s, step).Pushed() == s.Pushed();
    }
  }

  lemma {:induction false} RunStarted(steps: seq<Step>)
    requires Possible(steps)
    ensures Started(After(steps), FirstPush(steps))
    decreases |steps|
  {
    if steps != [] {
      var n := |steps| - 1;
      RunStarted(steps[..n]);
      StepStarted(After(steps[..n]), steps[n], FirstPush(steps[..n]), FirstPush(steps));
    }
  }

  /** Once number 0 was pushed first, the test never fails. */
  lemma ZeroFirstPasses(s: Shared)
    requires Counted(s) && s.Pushed() != [] && s.Pushed()[0] == 0
    ensures GapTest(s)
  {
    if s.evicted != [] {
      assert s.evicted[0] == s.Pushed()[0];
      NotBoth(s, 0);
    } else {
      assert s.log[0] == s.Pushed()[0];
    }
  }

  /** Just after a first push that overtook another, nothing is evicted and the lowest number is not 0. */
  lemma OvertakingFails(s: Shared, k: nat)
    requires Started(s, -1) && 0 < k < |s.inFlight|
    ensures !GapTest(Apply(s, Push(k)))
  {
    assert s.inFlight[k] == k && s.log == [] && s.evicted == [];
    assert Apply(s, Push(k)).log == [k];
  }

  /** Where in a run the first push is. */
  lemma {:induction false} FirstPushAt(steps: seq<Step>) returns (n: nat)
    requires FirstPush(steps) >= 0
    ensures n < |steps| && FirstPush(steps[..n]) == -1 && steps[n] == Push(FirstPush(steps))
    decreases |steps|
  {
    var last := |steps| - 1;
    if FirstPush(steps[..last]) >= 0 {
      n := FirstPushAt(steps[..last]);
      assert steps[..last][..n] == steps[..n];
    } else {
      n := last;
    }
  }

  lemma {:induction false} PrefixPossible(steps: seq<Step>, n: nat)
    requires Possible(steps) && n <= |steps|
    ensures Possible(steps[..n])
    ensures n < |steps| ==> Enabled(After(steps[..n]), steps[n])
    decreases |steps|
  {
    if n < |steps| {
      var last := |steps| - 1;
      if n < last {
        PrefixPossible(steps[..last], n);
        assert steps[..last][..n] == steps[..n];
      }
    } else {
      assert steps[..n] == steps;
    }
  }

  lemma {:induction false} FirstPushOfPrefix(steps: seq<Step>, n: nat)
    requires n <= |steps|
    ensures FirstPush(steps[..n]) == -1 || FirstPush(steps[..n]) == FirstPush(steps)
    decreases |steps|
  {
    if n < |steps| {
      var last := |steps| - 1;
      FirstPushOfPrefix(steps[..last], n);
      assert steps[..last][..n] == steps[..n];
    } else {
      assert steps[..n] == steps;
    }
  }

  ghost predicate GapTestAt(steps: seq<Step>, n: nat) {
    n <= |steps| && Possible(steps[..n]) && GapTest(After(steps[..n]))
  }

  lemma PrefixPasses(steps: seq<Step>, n: nat)
    requires Possible(steps) && n <= |steps| && FirstPush(steps) <= 0
    ensures GapTestAt(steps, n)
  {
    PrefixPossible(steps, n);
    FirstPushOfPrefix(steps, n);
    RunStarted(steps[..n]);
    EveryRunAccounted(steps[..n]);
    if FirstPush(steps[..n]) == 0 {
      ZeroFirstPasses(After(steps[..n]));
    }
  }

  lemma SomePrefixFails(steps: seq<Step>) returns (n: nat)
    requires Possible(steps) && FirstPush(steps) > 0
    ensures n <= |steps| && !GapTestAt(steps, n)
  {
    var first := FirstPushAt(steps);
    PrefixPossible(steps, first);
    RunStarted(steps[..first]);
    OneMore(steps[..first], steps[first]);
    OvertakingFails(After(steps[..first]), FirstPush(steps));
    n := first + 1;
    assert steps[..n] == steps[..first] + [steps[first]];
  }

  /**
    The lowest number tells whether lines are missing, at every moment of a run,
    exactly when the first line pushed did not overtake another.
   */
  lemma GapTestExactly(steps: seq<Step>)
    requires Possible(steps)
    ensures (forall n: nat | n <= |steps| :: GapTestAt(steps, n)) <==> FirstPush(steps) <= 0
  {
    if FirstPush(steps) <= 0 {
      forall n: nat | n <= |steps| ensures GapTestAt(steps, n) {
        PrefixPasses(steps, n);
      }
    } else {
      var n := SomePrefixFails(steps);
      assert !GapTestAt(steps, n);
    }
  }

  /** The smallest failing run: nothing is evicted, and the lowest number is 1. */
  lemma GapTestFails()
    ensures var steps := [Take, Take, Push(1)];
      Possible(steps) && After(steps).evicted == [] && After(steps).log == [1]
  {
    LaterFirst();
  }

  // ----- Posts one at a time are runs in which no two overlap

  /** The counter step and the log step of n posts, one post after the other. */
  function OneAtATime(n: nat): seq<Step> {
    if n == 0 then [] else OneAtATime(n - 1) + [Take, Push(0)]
  }

  /** A post alone: its ticket is pushed as soon as it is taken. */
  lemma PostAlone(steps: seq<Step>, more: seq<Step>)
    requires Possible(steps) && After(steps).inFlight == [] && more == steps + [Take, Push(0)]
    ensures Possible(more)
    ensures After(more).issued == After(steps).issued + 1 && After(more).inFlight == []
    ensures After(more).Pushed() == After(steps).Pushed() + [After(steps).issued]
  {
    OneMore(steps, Take);
    OneMore(steps + [Take], Push(0));
    assert steps + [Take] + [Push(0)] == more;
    PushAppends(After(steps + [Take]), 0);
    assert Without([After(steps).issued], 0) == [];
  }

  /** The messages of the tickets: ticket t is post t, numbered modulo 2^64. */
  function Messages(tickets: seq<nat>, posts: seq<Post>): (ms: seq<MeshMessage>)
    requires forall i | 0 <= i < |tickets| :: tickets[i] < |posts|
    ensures |ms| == |tickets|
    ensures forall i | 0 <= i < |ms| :: ms[i] == MessageFor(tickets[i] % TWO_TO_THE_64, posts[tickets[i]])
  {
    seq(|tickets|, i requires 0 <= i < |tickets| => MessageFor(tickets[i] % TWO_TO_THE_64, posts[tickets[i]]))
  }

  lemma {:induction false} OneAtATimeState(n: nat)
    ensures Possible(OneAtATime(n))
    ensures var s := After(OneAtATime(n)); s.issued == n && s.inFlight == [] && s.Pushed() == UpTo(n)
  {
    if n > 0 {
      OneAtATimeState(n - 1);
      PostAlone(OneAtATime(n - 1), OneAtATime(n));
    }
  }

  lemma WindowOfMessages(posts: seq<Post>)
    ensures var kept := Window(UpTo(|posts|));
      && (forall i | 0 <= i < |kept| :: kept[i] < |posts|)
      && Messages(kept, posts) == Window(Numbered(posts))
  {
  }

  /** Before 2^64 tickets are taken, the numbers a reader sees are the tickets, and the test is `GapTest`'s. */
  lemma {:induction false} ReaderSeesTickets(s: Shared, posts: seq<Post>)
    requires Issued(s) && s.issued <= |posts| <= 0x1_0000_0000_0000_0000
    requires forall i | 0 <= i < |s.log| :: s.log[i] < |posts|
    ensures forall i | 0 <= i < |s.log| :: Shows(Messages(s.log, posts)[i], s.log[i], posts[s.log[i]])
    ensures GapTest(s) <==> (s.log != [] ==> (LowestNonzero(Messages(s.log, posts)) <==> s.evicted != []))
  {
    var ms := Messages(s.log, posts);
    forall i | 0 <= i < |s.log| ensures ms[i].number == s.log[i] {
      assert s.log[i] % TWO_TO_THE_64 == s.log[i];
    }
    if 0 in s.log {
      var i :| 0 <= i < |s.log| && s.log[i] == 0;
      assert ms[i].number == 0;
    }
  }

  /** The bus whose posts do not overlap is the run that takes and pushes one ticket at a time. */
  lemma PostAllIsARun(posts: seq<Post>)
    ensures Possible(OneAtATime(|posts|))
    ensures var s, bus := After(OneAtATime(|posts|)), PostAll(Bus(0, []), posts);
      && bus.number == s.issued % TWO_TO_THE_64
      && (forall i | 0 <= i < |s.log| :: s.log[i] < |posts|)
      && bus.log == Messages(s.log, posts)
  {
    OneAtATimeState(|posts|);
    EveryRunAccounted(OneAtATime(|posts|));
    FeedWindow(posts);
    WindowOfMessages(posts);
  }
}
