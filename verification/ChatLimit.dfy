/**
 The per-address chat limit.  The server keeps only the newest messagesPerInterval timestamps; a message
 that would be one too many within the interval mutes the address.  The clock is read several times for
 one message: for the mute check, once per retained timestamp, and once for the timestamp or the mute.
 */
module ChatLimit {
  /** Times in clock ticks. */
  datatype Config = Config(messagesPerInterval: nat, interval: nat, muteTime: nat)

  /** The clock reads of one message, in the order they happen. */
  datatype Reads = Reads(muteCheck: int, counts: seq<int>, last: int)

  /** sent and clock are history: the timestamps of all broadcast messages, and the latest clock read. */
  datatype IpData = IpData(isMuted: bool, timestamps: seq<int>, muteTime: int, sent: seq<int>, clock: int)

  datatype Outcome = Refused | Muted | Sent

  predicate Sorted(s: seq<int>) {
    forall i, j | 0 <= i < j < |s| :: s[i] <= s[j]
  }

  /** The reads never go back, and there is one for every retained timestamp. */
  predicate Timed(ip: IpData, r: Reads) {
    |r.counts| == |ip.timestamps| && ip.clock <= r.muteCheck <= r.last && Sorted(r.counts) &&
    forall k | 0 <= k < |r.counts| :: r.muteCheck <= r.counts[k] <= r.last
  }

  predicate Recent(timestamp: int, now: int, interval: nat) {
    timestamp > now - interval
  }

  /** std::count_if with its own clock read for every timestamp. */
  function MutableMessages(timestamps: seq<int>, counts: seq<int>, interval: nat): (n: nat)
    requires |timestamps| == |counts|
    ensures n <= |timestamps|
  {
    if timestamps == [] then 0 else
      var last := |timestamps| - 1;
      MutableMessages(timestamps[..last], counts[..last], interval) +
      if Recent(timestamps[last], counts[last], interval) then 1 else 0
  }

  /** What happens to a message once the recent ones are counted. */
  function Decide(c: Config, ip: IpData, count: nat, last: int): (IpData, Outcome) {
    if count + 1 > c.messagesPerInterval then
      (ip.(isMuted := true, muteTime := last + c.muteTime, clock := last), Muted)
    else
      var kept := if |ip.timestamps| >= c.messagesPerInterval then ip.timestamps[1..] else ip.timestamps;
      (IpData(false, kept + [last], ip.muteTime, ip.sent + [last], last), Sent)
  }

  function Chat(c: Config, ip: IpData, r: Reads): (IpData, Outcome)
    requires Timed(ip, r)
  {
    if ip.isMuted && r.muteCheck < ip.muteTime then (ip.(clock := r.muteCheck), Refused)
    else Decide(c, ip, MutableMessages(ip.timestamps, r.counts, c.interval), r.last)
  }

  // ----- What is counted

  /** The messages that are less than the interval old at their clock reads. */
  ghost function RecentMessages(timestamps: seq<int>, counts: seq<int>, interval: nat): (s: set<nat>)
    requires |timestamps| == |counts|
  {
    set k: nat | k < |timestamps| && counts[k] - timestamps[k] < interval
  }

  lemma {:induction false} CountIsNumber(timestamps: seq<int>, counts: seq<int>, interval: nat)
    requires |timestamps| == |counts|
    ensures MutableMessages(timestamps, counts, interval) == |RecentMessages(timestamps, counts, interval)|
  {
    if timestamps == [] {
      assert RecentMessages(timestamps, counts, interval) == {};
    } else {
      var last := |timestamps| - 1;
      CountIsNumber(timestamps[..last], counts[..last], interval);
      var before := RecentMessages(timestamps[..last], counts[..last], interval);
      assert last !in before;
      assert RecentMessages(timestamps, counts, interval) ==
             before + if counts[last] - timestamps[last] < interval then {last} else {};
    }
  }

  // ----- What every message keeps

  /** The retained timestamps are the newest ones of the history, and any messagesPerInterval + 1 messages
      in a row span at least the interval. */
  ghost predicate Inv(c: Config, ip: IpData) {
    ip.timestamps == Newest(ip.sent, c.messagesPerInterval) && Sorted(ip.sent) && Spaced(c, ip.sent) &&
    (ip.sent != [] ==> ip.sent[|ip.sent| - 1] <= ip.clock)
  }

  ghost predicate Spaced(c: Config, sent: seq<int>) {
    forall i, j | 0 <= i && j == i + c.messagesPerInterval && j < |sent| :: sent[i] + c.interval <= sent[j]
  }

  /** All timestamps are counted exactly when each one is recent at its own clock read. */
  lemma {:induction false} AllCounted(timestamps: seq<int>, counts: seq<int>, interval: nat)
    requires |timestamps| == |counts|
    ensures MutableMessages(timestamps, counts, interval) == |timestamps| <==>
            forall k | 0 <= k < |timestamps| :: Recent(timestamps[k], counts[k], interval)
  {
    if timestamps != [] {
      var last := |timestamps| - 1;
      AllCounted(timestamps[..last], counts[..last], interval);
      assert forall k | 0 <= k < last :: timestamps[..last][k] == timestamps[k] && counts[..last][k] == counts[k];
    }
  }

  /** When the count is below a full list, the oldest retained message is at least the interval old. */
  lemma OldestIsOld(c: Config, ip: IpData, r: Reads)
    requires Inv(c, ip) && Timed(ip, r) && |ip.sent| >= c.messagesPerInterval
    requires MutableMessages(ip.timestamps, r.counts, c.interval) < c.messagesPerInterval
    ensures ip.sent[|ip.sent| - c.messagesPerInterval] + c.interval <= r.last
  {
    hide Spaced, MutableMessages;
    AllCounted(ip.timestamps, r.counts, c.interval);
    var k :| 0 <= k < |ip.timestamps| && !Recent(ip.timestamps[k], r.counts[k], c.interval);
    var first := |ip.sent| - c.messagesPerInterval;
    assert ip.timestamps[k] == ip.sent[first + k];
    assert ip.sent[first] <= ip.sent[first + k];
  }

  lemma SortedAppend(s: seq<int>, x: int)
    requires Sorted(s) && (s != [] ==> s[|s| - 1] <= x)
    ensures Sorted(s + [x])
  {}

  lemma SpacedAppend(c: Config, sent: seq<int>, x: int)
    requires Spaced(c, sent) && c.messagesPerInterval > 0
    requires |sent| >= c.messagesPerInterval ==> sent[|sent| - c.messagesPerInterval] + c.interval <= x
    ensures Spaced(c, sent + [x])
  {}

  /** The newest messagesPerInterval entries of a history, or all of them. */
  function Newest(sent: seq<int>, limit: nat): seq<int> {
    if |sent| < limit then sent else sent[|sent| - limit..]
  }

  lemma NewestAppend(sent: seq<int>, limit: nat, x: int)
    requires limit > 0
    ensures var kept := Newest(sent, limit);
      Newest(sent + [x], limit) == (if |kept| >= limit then kept[1..] else kept) + [x]
  {}

  lemma ChatInv(c: Config, ip: IpData, r: Reads)
    requires Inv(c, ip) && Timed(ip, r)
    ensures Inv(c, Chat(c, ip, r).0)
  {
    hide Sorted, Spaced, MutableMessages, Newest;
    var (ip', outcome) := Chat(c, ip, r);
    if outcome == Sent {
      if |ip.sent| >= c.messagesPerInterval {
        OldestIsOld(c, ip, r);
      }
      SortedAppend(ip.sent, r.last);
      SpacedAppend(c, ip.sent, r.last);
      NewestAppend(ip.sent, c.messagesPerInterval, r.last);
    }
  }

  ghost predicate IsRun(c: Config, ip: IpData, rs: seq<Reads>)
    decreases rs
  {
    rs != [] ==> Timed(ip, rs[0]) && IsRun(c, Chat(c, ip, rs[0]).0, rs[1..])
  }

  ghost function Run(c: Config, ip: IpData, rs: seq<Reads>): IpData
    requires IsRun(c, ip, rs)
    decreases rs
  {
    if rs == [] then ip else Run(c, Chat(c, ip, rs[0]).0, rs[1..])
  }

  lemma {:induction false} RunInv(c: Config, ip: IpData, rs: seq<Reads>)
    requires Inv(c, ip) && IsRun(c, ip, rs)
    ensures Inv(c, Run(c, ip, rs))
    decreases rs
  {
    if rs != [] {
      hide Inv, Chat;
      ChatInv(c, ip, rs[0]);
      RunInv(c, Chat(c, ip, rs[0]).0, rs[1..]);
    }
  }

  // ----- The sliding window

  /** How many messages have a timestamp in [from, from + length). */
  function InWindow(sent: seq<int>, from: int, length: nat): nat {
    if sent == [] then 0 else
      var last := |sent| - 1;
      InWindow(sent[..last], from, length) + if from <= sent[last] < from + length then 1 else 0
  }

  lemma {:induction false} EarlyOnesOutside(sent: seq<int>, from: int, length: nat, k: nat)
    requires k <= |sent| && forall i | 0 <= i < k :: sent[i] < from
    ensures InWindow(sent, from, length) <= |sent| - k
  {
    if |sent| > k {
      EarlyOnesOutside(sent[..|sent| - 1], from, length, k);
    } else if sent != [] {
      EarlyOnesOutside(sent[..|sent| - 1], from, length, k - 1);
    }
  }

  lemma {:induction false} SpacedWindow(c: Config, sent: seq<int>, from: int)
    requires Sorted(sent) && Spaced(c, sent)
    ensures InWindow(sent, from, c.interval) <= c.messagesPerInterval
  {
    if sent != [] {
      var last := |sent| - 1;
      if from <= sent[last] < from + c.interval {
        if last >= c.messagesPerInterval {
          var i := last - c.messagesPerInterval;
          assert sent[i] + c.interval <= sent[last];
          EarlyOnesOutside(sent, from, c.interval, i + 1);
        } else {
          EarlyOnesOutside(sent, from, c.interval, 0);
        }
      } else {
        SpacedWindow(c, sent[..last], from);
      }
    }
  }

  const FRESH := IpData(false, [], 0, [], 0)

  /** Over every run no window of the interval's length holds more than messagesPerInterval broadcasts. */
  lemma WindowLimit(c: Config, rs: seq<Reads>, from: int)
    requires IsRun(c, FRESH, rs)
    ensures InWindow(Run(c, FRESH, rs).sent, from, c.interval) <= c.messagesPerInterval
  {
    RunInv(c, FRESH, rs);
    SpacedWindow(c, Run(c, FRESH, rs).sent, from);
  }

  // ----- The bounded list stands in for the whole history

  /** Clock reads for the whole history that agree with r on the retained timestamps; none is before the
      last read of the message before. */
  ghost predicate FullReads(ip: IpData, r: Reads, full: seq<int>) {
    |full| == |ip.sent| && |ip.timestamps| <= |full| && full[|full| - |ip.timestamps|..] == r.counts &&
    forall k | 0 <= k < |full| :: ip.clock <= full[k]
  }

  lemma {:induction false} CountAppend(a: seq<int>, b: seq<int>, m: seq<int>, n: seq<int>, interval: nat)
    requires |a| == |m| && |b| == |n|
    ensures MutableMessages(a + b, m + n, interval) ==
            MutableMessages(a, m, interval) + MutableMessages(b, n, interval)
  {
    if b == [] {
      assert a + b == a && m + n == m;
    } else {
      var last := |b| - 1;
      CountAppend(a, b[..last], m, n[..last], interval);
      assert (a + b)[..|a| + last] == a + b[..last] && (m + n)[..|m| + last] == m + n[..last];
    }
  }

  lemma {:induction false} NoneCounted(timestamps: seq<int>, counts: seq<int>, interval: nat)
    requires |timestamps| == |counts|
    requires forall k | 0 <= k < |timestamps| :: !Recent(timestamps[k], counts[k], interval)
    ensures MutableMessages(timestamps, counts, interval) == 0
  {
    if timestamps != [] {
      NoneCounted(timestamps[..|timestamps| - 1], counts[..|counts| - 1], interval);
    }
  }

  /** A message that has left the list is no longer recent at any read of a later message. */
  lemma LeftIsOld(c: Config, ip: IpData, j: nat, now: int)
    requires Inv(c, ip) && j + |ip.timestamps| < |ip.sent| && ip.clock <= now
    ensures !Recent(ip.sent[j], now, c.interval)
  {
    var newer := j + c.messagesPerInterval;
    assert newer < |ip.sent|;
    assert ip.sent[j] + c.interval <= ip.sent[newer] <= ip.sent[|ip.sent| - 1];
  }

  /** Counting over the retained timestamps is counting over the whole history, for any clock reads. */
  lemma RetainedDecides(c: Config, ip: IpData, r: Reads, full: seq<int>)
    requires Inv(c, ip) && Timed(ip, r) && FullReads(ip, r, full)
    ensures MutableMessages(ip.sent, full, c.interval) == MutableMessages(ip.timestamps, r.counts, c.interval)
  {
    hide MutableMessages, Sorted, Spaced, Recent;
    var gone := |ip.sent| - |ip.timestamps|;
    forall j | 0 <= j < gone ensures !Recent(ip.sent[..gone][j], full[..gone][j], c.interval) {
      LeftIsOld(c, ip, j, full[j]);
    }
    NoneCounted(ip.sent[..gone], full[..gone], c.interval);
    CountAppend(ip.sent[..gone], ip.timestamps, full[..gone], r.counts, c.interval);
    assert ip.sent == ip.sent[..gone] + ip.timestamps && full == full[..gone] + r.counts;
  }

  /** A message is refused exactly when a mute is running; otherwise it is broadcast when fewer than
      messagesPerInterval messages of the whole history are recent, and mutes when it is one too many. */
  lemma DecidedByHistory(c: Config, ip: IpData, r: Reads, full: seq<int>)
    requires Inv(c, ip) && Timed(ip, r) && FullReads(ip, r, full)
    ensures |full| == |ip.sent|
    ensures Chat(c, ip, r).1 ==
            if ip.isMuted && r.muteCheck < ip.muteTime then Refused
            else if |RecentMessages(ip.sent, full, c.interval)| < c.messagesPerInterval then Sent else Muted
  {
    assert |full| == |ip.sent|;
    hide Inv, FullReads, MutableMessages;
    RetainedDecides(c, ip, r, full);
    CountIsNumber(ip.sent, full, c.interval);
  }

  /** What each outcome does: only a broadcast adds to the history, under the last clock read, and ends a mute;
      only a mute sets its end. */
  lemma OutcomeMeans(c: Config, ip: IpData, r: Reads)
    requires Timed(ip, r)
    ensures var (next, outcome) := Chat(c, ip, r);
      match outcome
      case Refused => next == ip.(clock := r.muteCheck) && ip.isMuted
      case Muted => next == ip.(isMuted := true, muteTime := r.last + c.muteTime, clock := r.last)
      case Sent => next.sent == ip.sent + [r.last] && !next.isMuted && next.clock == r.last &&
                   next.muteTime == ip.muteTime
  {
    hide MutableMessages;
  }

  // ----- A mute holds

  /** No message is broadcast before the mute is over. */
  lemma {:induction false} MuteHolds(c: Config, ip: IpData, rs: seq<Reads>, until: int, i: nat)
    requires IsRun(c, ip, rs) && ((ip.isMuted && ip.muteTime >= until) || ip.clock >= until)
    requires |ip.sent| <= i < |Run(c, ip, rs).sent|
    ensures Run(c, ip, rs).sent[i] >= until
    decreases rs
  {
    if rs != [] {
      var ip' := Chat(c, ip, rs[0]).0;
      if i < |ip'.sent| {
        SentStays(c, ip', rs[1..], i);
      } else {
        MuteHolds(c, ip', rs[1..], until, i);
      }
    }
  }

  /** Messages during a mute change nothing but the clock. */
  lemma {:induction false} RefusedRun(c: Config, ip: IpData, rs: seq<Reads>)
    requires IsRun(c, ip, rs) && ip.isMuted && forall k | 0 <= k < |rs| :: rs[k].muteCheck < ip.muteTime
    ensures Run(c, ip, rs) == ip.(clock := Run(c, ip, rs).clock)
    decreases rs
  {
    if rs != [] {
      hide MutableMessages, Decide;
      RefusedRun(c, Chat(c, ip, rs[0]).0, rs[1..]);
    }
  }

  /** The mute ends exactly muteTime after the message that caused it: however many messages come before that,
      the next one is refused if and only if it comes before that, too; then the history decides again. */
  lemma MuteEnds(c: Config, ip: IpData, r: Reads, rs: seq<Reads>, r': Reads)
    requires Timed(ip, r) && Chat(c, ip, r).1 == Muted
    requires IsRun(c, Chat(c, ip, r).0, rs) && Timed(Run(c, Chat(c, ip, r).0, rs), r')
    requires forall k | 0 <= k < |rs| :: rs[k].muteCheck < r.last + c.muteTime
    ensures Chat(c, Run(c, Chat(c, ip, r).0, rs), r').1 == Refused <==> r'.muteCheck < r.last + c.muteTime
  {
    OutcomeMeans(c, ip, r);
    hide MutableMessages;
    RefusedRun(c, Chat(c, ip, r).0, rs);
  }

  /** After a message that mutes, nothing is broadcast for the whole mute time. */
  lemma MuteLasts(c: Config, ip: IpData, r: Reads, rs: seq<Reads>, i: nat)
    requires Timed(ip, r) && Chat(c, ip, r).1 == Muted && IsRun(c, Chat(c, ip, r).0, rs)
    requires |ip.sent| <= i < |Run(c, Chat(c, ip, r).0, rs).sent|
    ensures Run(c, Chat(c, ip, r).0, rs).sent[i] >= r.last + c.muteTime
  {
    MuteHolds(c, Chat(c, ip, r).0, rs, r.last + c.muteTime, i);
  }

  lemma {:induction false} SentStays(c: Config, ip: IpData, rs: seq<Reads>, i: nat)
    requires IsRun(c, ip, rs) && i < |ip.sent|
    ensures i < |Run(c, ip, rs).sent| && Run(c, ip, rs).sent[i] == ip.sent[i]
    decreases rs
  {
    if rs != [] {
      SentStays(c, Chat(c, ip, rs[0]).0, rs[1..], i);
    }
  }

  // ----- The chat case as code

  class AddressData {
    var isMuted: bool
    var messageTimestamps: seq<int>
    var muteTime: int
    ghost var sent: seq<int>
    ghost var clock: int

    ghost function View(): IpData
      reads this
    {
      IpData(isMuted, messageTimestamps, muteTime, sent, clock)
    }

    constructor ()
      ensures View() == FRESH
    {
      isMuted, messageTimestamps, muteTime, sent, clock := false, [], 0, [], 0;
    }

    method HandleChat(c: Config, r: Reads) returns (outcome: Outcome)
      requires Inv(c, View()) && Timed(View(), r)
      modifies this
      ensures (View(), outcome) == Chat(c, old(View()), r) && Inv(c, View())
    {
      ChatInv(c, View(), r);
      hide Inv, MutableMessages;
      if isMuted {
        if r.muteCheck < muteTime {
          clock := r.muteCheck;
          return Refused;
        }
        isMuted := false;
      }
      var mutableMessages := CountIf(messageTimestamps, r.counts, c.interval);
      outcome := MuteOrSend(c, mutableMessages, r.last);
    }

    /** Mute when this message is one too many; otherwise send it and keep its timestamp. */
    method MuteOrSend(c: Config, mutableMessages: nat, now: int) returns (outcome: Outcome)
      requires !isMuted
      modifies this
      ensures (View(), outcome) == Decide(c, old(View()), mutableMessages, now)
    {
      clock := now;
      if mutableMessages + 1 > c.messagesPerInterval {
        muteTime := now + c.muteTime;
        isMuted := true;
        return Muted;
      }
      if |messageTimestamps| >= c.messagesPerInterval {
        messageTimestamps := messageTimestamps[1..];
      }
      messageTimestamps := messageTimestamps + [now];
      sent := sent + [now];
      return Sent;
    }
  }

  method CountIf(timestamps: seq<int>, counts: seq<int>, interval: nat) returns (n: nat)
    requires |timestamps| == |counts|
    ensures n == MutableMessages(timestamps, counts, interval)
  {
    n := 0;
    for k := 0 to |timestamps|
      invariant n == MutableMessages(timestamps[..k], counts[..k], interval)
    {
      if timestamps[k] > counts[k] - interval {
        n := n + 1;
      }
      assert timestamps[..k + 1][..k] == timestamps[..k] && counts[..k + 1][..k] == counts[..k];
    }
    assert timestamps[..|timestamps|] == timestamps && counts[..|counts|] == counts;
  }
}
