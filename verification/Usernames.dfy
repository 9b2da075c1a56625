/** Username changes and guest names: who is called what, and how often an address may rename. */
module Usernames {
  import opened Decimal
  import Streams

  type UserId = nat

  type Address = nat

  /** A user in the server's table; live: the connection handle has not expired. */
  datatype User = User(name: string, ip: Address, connected: bool, live: bool)

  /** The cooldown is in clock ticks. */
  datatype Limits = Limits(minLength: nat, maxLength: nat, cooldown: nat)

  /** Drawing: no free guest name among the numbers drawn so far. */
  datatype Outcome = Refused | Renamed | GuestGiven | Drawing

  type Users = map<UserId, User>

  /** An accepted username change. */
  datatype Change = Change(ip: Address, time: nat)

  /** clock and changes are history: the latest clock read and the accepted changes in their order. */
  datatype State = State(users: Users, lastRename: map<Address, nat>, clock: nat, changes: seq<Change>)

  /** test and accept: when a username command compares the clock with the cooldown, and when it notes the
      accepted change; draws: the random numbers for guest names. */
  datatype Step =
    | Connect(u: UserId, ip: Address)
    | Leave(u: UserId, connected: bool, live: bool, registered: bool)
    | Username(u: UserId, newUsername: string, test: nat, accept: nat, draws: seq<nat>)

  /** Another user who can be reached goes by this name. */
  predicate Taken(users: Users, name: string, self: UserId) {
    exists u | u in users :: u != self && users[u].name == name && users[u].connected && users[u].live
  }

  /** Users who can be reached never share a name, except that of users who have none yet. */
  predicate Unique(users: Users) {
    forall u, v | u in users && v in users && u != v && users[u].name != "" &&
      users[u].connected && users[u].live && users[v].connected && users[v].live ::
      users[u].name != users[v].name
  }

  predicate Positive(limits: Limits) {
    limits.minLength > 0
  }

  predicate GoodContent(name: string)
    requires name != ""
  {
    name[0] != ' ' && name[|name| - 1] != ' ' && (forall i | 0 <= i < |name| :: ' ' <= name[i] <= '~') &&
    forall i | 0 <= i < |name| - 1 :: !(name[i] == ' ' && name[i + 1] == ' ')
  }

  predicate Acceptable(name: string, limits: Limits)
    requires Positive(limits)
  {
    limits.minLength <= |name| <= limits.maxLength && GoodContent(name)
  }

  predicate Printable(name: string) {
    forall i | 0 <= i < |name| :: ' ' <= name[i] <= '~'
  }

  /** Good names are printable words with one space between them. */
  lemma {:induction false} GoodContentIs(name: string)
    requires name != ""
    ensures GoodContent(name) <==> Printable(name) && Streams.Spaced(Streams.Words(name)) == name + " "
    decreases |name|
  {
    if GoodContent(name) {
      GoodIsSpaced(name);
    }
    if Streams.Spaced(Streams.Words(name)) == name + " " {
      SpacedIsGood(Streams.Words(name));
      var s := name + " ";
      assert s[|s| - 2] == name[|name| - 1] && forall i | 0 <= i < |name| :: s[i] == name[i];
    }
  }

  lemma {:induction false} GoodIsSpaced(name: string)
    requires name != "" && GoodContent(name)
    ensures Streams.Spaced(Streams.Words(name)) == name + " "
    decreases |name|
  {
    var w, rest := FirstOfGood(name);
    if rest == "" {
      SpacedWord(w);
    } else {
      GoodIsSpaced(rest);
      hide *;
      SpacedStep(w, rest);
    }
  }

  lemma SpacedWord(w: string)
    requires Streams.IsWord(w)
    ensures Streams.Spaced(Streams.Words(w)) == w + " "
  {
    Streams.WordThenGap(w, "", "");
    hide Streams.IsWord;
    assert w + "" + "" == w;
    SpacedFirst(w, []);
    assert w + " " + "" == w + " ";
  }

  lemma SpacedStep(w: string, rest: string)
    requires Streams.IsWord(w) && Streams.Spaced(Streams.Words(rest)) == rest + " "
    ensures Streams.Spaced(Streams.Words(w + " " + rest)) == w + " " + rest + " "
  {
    Streams.WordThenGap(w, " ", rest);
    hide *;
    SpacedFirst(w, Streams.Words(rest));
  }

  lemma FirstOfGood(name: string) returns (w: string, rest: string)
    requires name != "" && GoodContent(name)
    ensures Streams.IsWord(w) && name == if rest == "" then w else w + " " + rest
    ensures rest != "" ==> GoodContent(rest)
  {
    hide Streams.WordLength;
    var n := Streams.WordLength(name);
    assert n > 0;
    w := name[..n];
    if n == |name| {
      rest := "";
    } else {
      assert name[n] == ' ' && n + 1 < |name|;
      rest := name[n + 1..];
      GoodRest(name, n + 1);
      assert name == name[..n] + [name[n]] + name[n + 1..];
    }
  }

  lemma GoodRest(name: string, from: nat)
    requires 0 < from < |name| && GoodContent(name) && name[from - 1] == ' '
    ensures GoodContent(name[from..])
  {
    var rest := name[from..];
    forall i | 0 <= i < |rest| - 1 ensures !(rest[i] == ' ' && rest[i + 1] == ' ') {
      assert rest[i] == name[from + i] && rest[i + 1] == name[from + i + 1];
    }
    assert name[from - 1 + 1] == rest[0] && rest[|rest| - 1] == name[|name| - 1];
  }

  lemma SpacedFirst(w: string, words: seq<string>)
    ensures Streams.Spaced([w] + words) == w + " " + Streams.Spaced(words) && Streams.Words("") == []
    ensures Streams.Spaced([]) == ""
  {
    assert ([w] + words)[1..] == words;
  }

  /** Words that each have one space behind them. */
  ghost predicate SingleSpaces(s: string) {
    |s| >= 2 && s[0] != ' ' && s[|s| - 2] != ' ' && s[|s| - 1] == ' ' &&
    forall i | 0 <= i < |s| - 2 :: !(s[i] == ' ' && s[i + 1] == ' ')
  }

  lemma {:induction false} SpacedIsGood(words: seq<string>)
    requires words != [] && forall w | w in words :: Streams.IsWord(w)
    ensures SingleSpaces(Streams.Spaced(words))
  {
    var w, rest := words[0], Streams.Spaced(words[1..]);
    assert Streams.IsWord(w);
    hide SingleSpaces;
    if |words| > 1 {
      SpacedIsGood(words[1..]);
    }
    OneMoreWord(w, rest);
  }

  lemma OneMoreWord(w: string, rest: string)
    requires Streams.IsWord(w) && (rest == "" || SingleSpaces(rest))
    ensures SingleSpaces(w + " " + rest)
  {
    var s, n := w + " " + rest, |w| + 1;
    forall i | 0 <= i < |s| - 2 ensures !(s[i] == ' ' && s[i + 1] == ' ') {
      if i < |w| {
        assert s[i] == w[i];
      } else if i == |w| {
        assert s[i + 1] == rest[0];
      } else {
        assert s[i] == rest[i - n] && s[i + 1] == rest[i - n + 1];
      }
    }
    assert s[0] == w[0];
  }

  function Guest(r: nat): string {
    "guest" + Print(r)
  }

  const GUESTS := 100000

  /** A guest name is the word guest and a number without leading zeros. */
  lemma GuestMeans(r: nat)
    ensures var name := Guest(r);
      |name| > 5 && name[..5] == "guest" && AllDigits(name[5..]) && Value(name[5..]) == r &&
      (name[5] == '0' <==> r == 0)
  {
    ValueOfPrint(r);
    NoLeadingZero(r);
    assert Guest(r)[5..] == Print(r);
  }

  lemma GuestInjective(r: nat, q: nat)
    requires Guest(r) == Guest(q)
    ensures r == q
  {
    assert Print(r) == Guest(r)[5..] == Guest(q)[5..] == Print(q);
    PrintInjective(r, q);
  }

  /** The other users who hold the guest names below n are at least as many as the taken ones. */
  lemma {:induction false} TakenGuests(users: Users, self: UserId, n: nat) returns (holders: set<UserId>)
    requires forall r: nat | r < n :: Taken(users, Guest(r), self)
    ensures |holders| == n && holders <= users.Keys - {self}
    ensures forall u | u in holders :: exists r: nat | r < n :: users[u].name == Guest(r)
  {
    if n == 0 {
      holders := {};
    } else {
      var rest := TakenGuests(users, self, n - 1);
      assert Taken(users, Guest(n - 1), self);
      var u :| u in users && u != self && users[u].name == Guest(n - 1) && users[u].connected && users[u].live;
      if u in rest {
        var r: nat :| r < n - 1 && users[u].name == Guest(r);
        GuestInjective(r, n - 1);
        assert false;
      }
      holders := rest + {u};
    }
  }

  /** With fewer than 100000 other users some guest name is free. */
  lemma FreeGuest(users: Users, self: UserId) returns (r: nat)
    requires |users.Keys - {self}| < GUESTS
    ensures r < GUESTS && !Taken(users, Guest(r), self)
  {
    if forall r: nat | r < GUESTS :: Taken(users, Guest(r), self) {
      var holders := TakenGuests(users, self, GUESTS);
      SubsetSize(holders, users.Keys - {self});
      assert false;
    }
    r :| r < GUESTS && !Taken(users, Guest(r), self);
  }

  lemma {:induction false} SubsetSize(a: set<UserId>, b: set<UserId>)
    requires a <= b
    ensures |a| <= |b|
  {
    assert b == a + (b - a);
  }

  // ----- The steps

  /** The number of draws until a guest name is free. */
  function FirstFree(users: Users, draws: seq<nat>, u: UserId): (k: nat)
    ensures k <= |draws| && (k < |draws| ==> !Taken(users, Guest(draws[k] % GUESTS), u))
    ensures forall i | 0 <= i < k :: Taken(users, Guest(draws[i] % GUESTS), u)
  {
    if draws == [] || !Taken(users, Guest(draws[0] % GUESTS), u) then 0
    else FirstFree(users, draws[1..], u) + 1
  }

  /** When an address last changed a name; the table's default is the clock's epoch. */
  function LastRename(s: State, ip: Address): nat {
    if ip in s.lastRename then s.lastRename[ip] else 0
  }

  predicate CoolingDown(limits: Limits, s: State, ip: Address, now: nat) {
    LastRename(s, ip) + limits.cooldown > now
  }

  function GiveGuest(users: Users, u: UserId, draws: seq<nat>): (Users, Outcome)
    requires u in users
  {
    var k := FirstFree(users, draws, u);
    if k < |draws| then (users[u := users[u].(name := Guest(draws[k] % GUESTS))], GuestGiven) else (users, Drawing)
  }

  /** The username case of QueueThread. */
  function Rename(limits: Limits, s: State, u: UserId, newUsername: string, test: nat, accept: nat,
                  draws: seq<nat>): (State, Outcome)
    requires Positive(limits) && u in s.users
  {
    var user := s.users[u];
    var looked := s.(lastRename := s.lastRename[user.ip := LastRename(s, user.ip)], clock := test);
    if CoolingDown(limits, s, user.ip, test) || (newUsername == user.name && user.name != "") then (looked, Refused)
    else if Acceptable(newUsername, limits) && !Taken(s.users, newUsername, u) then
      (State(s.users[u := user.(name := newUsername)], s.lastRename[user.ip := accept], accept,
             s.changes + [Change(user.ip, accept)]), Renamed)
    else if user.name == "" then
      var (users, outcome) := GiveGuest(s.users, u, draws);
      (looked.(users := users), outcome)
    else (looked, Refused)
  }

  /** The clock does not go back, and who is gone stays gone. */
  predicate Enabled(s: State, step: Step) {
    match step
    case Connect(u, _) => u !in s.users
    case Leave(u, connected, live, _) =>
      u in s.users && (connected ==> s.users[u].connected) && (live ==> s.users[u].live)
    case Username(u, _, test, accept, _) => u in s.users && s.clock <= test <= accept
  }

  function Next(limits: Limits, s: State, step: Step): State
    requires Positive(limits) && Enabled(s, step)
  {
    match step
    case Connect(u, ip) => s.(users := s.users[u := User("", ip, true, true)])
    case Leave(u, connected, live, registered) =>
      if registered then s.(users := s.users[u := s.users[u].(connected := connected, live := live)])
      else s.(users := s.users - {u})
    case Username(u, newUsername, test, accept, draws) =>
      Rename(limits, s, u, newUsername, test, accept, draws).0
  }

  ghost predicate IsRun(limits: Limits, s: State, steps: seq<Step>)
    requires Positive(limits)
    decreases steps
  {
    steps != [] ==> Enabled(s, steps[0]) && IsRun(limits, Next(limits, s, steps[0]), steps[1..])
  }

  ghost function Run(limits: Limits, s: State, steps: seq<Step>): State
    requires Positive(limits) && IsRun(limits, s, steps)
    decreases steps
  {
    if steps == [] then s else Run(limits, Next(limits, s, steps[0]), steps[1..])
  }

  const START := State(map[], map[], 0, [])

  // ----- What every step keeps

  /** Every name is none yet, an acceptable one, or a guest name. */
  ghost predicate GoodNames(limits: Limits, users: Users)
    requires Positive(limits)
  {
    forall u | u in users :: users[u].name == "" || Acceptable(users[u].name, limits) || IsGuest(users[u].name)
  }

  ghost predicate IsGuest(name: string) {
    exists r: nat :: r < GUESTS && name == Guest(r)
  }

  /** Accepted changes of one address are a cooldown apart, and the table knows the last one. */
  ghost predicate Spaced(limits: Limits, lastRename: map<Address, nat>, changes: seq<Change>) {
    (forall n | 0 <= n < |changes| ::
       changes[n].ip in lastRename && changes[n].time <= lastRename[changes[n].ip]) &&
    forall m, n | 0 <= m < n < |changes| && changes[m].ip == changes[n].ip ::
      changes[m].time + limits.cooldown <= changes[n].time
  }

  /** Whatever the table says is the clock's epoch or the time of an accepted change. */
  ghost predicate Recorded(lastRename: map<Address, nat>, changes: seq<Change>) {
    forall ip | ip in lastRename :: lastRename[ip] == 0 || Change(ip, lastRename[ip]) in changes
  }

  ghost predicate Inv(limits: Limits, s: State)
    requires Positive(limits)
  {
    Unique(s.users) && GoodNames(limits, s.users) && Spaced(limits, s.lastRename, s.changes) &&
    Recorded(s.lastRename, s.changes)
  }

  /** Giving a reachable name to a user keeps names unique when nobody else has it. */
  lemma RenameUnique(users: Users, u: UserId, name: string)
    requires Unique(users) && u in users && !Taken(users, name, u)
    ensures Unique(users[u := users[u].(name := name)])
  {}

  lemma GuestInv(limits: Limits, users: Users, u: UserId, draws: seq<nat>)
    requires Positive(limits) && Unique(users) && GoodNames(limits, users) && u in users
    ensures var users' := GiveGuest(users, u, draws).0; Unique(users') && GoodNames(limits, users')
  {
    var k := FirstFree(users, draws, u);
    if k < |draws| {
      RenameUnique(users, u, Guest(draws[k] % GUESTS));
      hide Taken, Unique, Guest, Acceptable;
      assert IsGuest(Guest(draws[k] % GUESTS));
    }
  }

  lemma LookedSpaced(limits: Limits, s: State, ip: Address)
    requires Spaced(limits, s.lastRename, s.changes)
    ensures Spaced(limits, s.lastRename[ip := LastRename(s, ip)], s.changes)
    ensures Recorded(s.lastRename, s.changes) ==> Recorded(s.lastRename[ip := LastRename(s, ip)], s.changes)
  {}

  lemma ChangeSpaced(limits: Limits, s: State, ip: Address, test: nat, accept: nat)
    requires Spaced(limits, s.lastRename, s.changes) && !CoolingDown(limits, s, ip, test) && test <= accept
    ensures Spaced(limits, s.lastRename[ip := accept], s.changes + [Change(ip, accept)])
    ensures Recorded(s.lastRename, s.changes) ==>
            Recorded(s.lastRename[ip := accept], s.changes + [Change(ip, accept)])
  {}

  lemma RenameInv(limits: Limits, s: State, u: UserId, newUsername: string, test: nat, accept: nat,
                  draws: seq<nat>)
    requires Positive(limits) && Inv(limits, s) && u in s.users && test <= accept
    ensures Inv(limits, Rename(limits, s, u, newUsername, test, accept, draws).0)
  {
    var ip := s.users[u].ip;
    if Acceptable(newUsername, limits) && !Taken(s.users, newUsername, u) {
      RenameUnique(s.users, u, newUsername);
      assert GoodNames(limits, s.users[u := s.users[u].(name := newUsername)]);
    }
    hide Unique, GoodNames, Spaced, Recorded, CoolingDown, Acceptable, Taken, GiveGuest;
    LookedSpaced(limits, s, ip);
    GuestInv(limits, s.users, u, draws);
    if !CoolingDown(limits, s, ip, test) {
      ChangeSpaced(limits, s, ip, test, accept);
    }
  }

  lemma NextInv(limits: Limits, s: State, step: Step)
    requires Positive(limits) && Inv(limits, s) && Enabled(s, step)
    ensures Inv(limits, Next(limits, s, step))
  {
    hide Spaced, Recorded, Rename, Acceptable, IsGuest;
    if step.Username? {
      RenameInv(limits, s, step.u, step.newUsername, step.test, step.accept, step.draws);
    }
  }

  lemma {:induction false} RunInv(limits: Limits, s: State, steps: seq<Step>)
    requires Positive(limits) && Inv(limits, s) && IsRun(limits, s, steps)
    ensures Inv(limits, Run(limits, s, steps))
    decreases steps
  {
    if steps != [] {
      NextInv(limits, s, steps[0]);
      hide Inv, Enabled, Next;
      RunInv(limits, Next(limits, s, steps[0]), steps[1..]);
    }
  }

  // ----- What every run guarantees

  /** At no time do two users who can be reached share a name, and every name is one the rules allow. */
  lemma AlwaysUnique(limits: Limits, steps: seq<Step>)
    requires Positive(limits) && IsRun(limits, START, steps)
    ensures Unique(Run(limits, START, steps).users) && GoodNames(limits, Run(limits, START, steps).users)
  {
    RunInv(limits, START, steps);
  }

  /** Any two accepted changes of one address are at least the cooldown apart. */
  lemma CooldownApart(limits: Limits, steps: seq<Step>, m: nat, n: nat)
    requires Positive(limits) && IsRun(limits, START, steps)
    requires var changes := Run(limits, START, steps).changes;
      m < n < |changes| && changes[m].ip == changes[n].ip
    ensures var changes := Run(limits, START, steps).changes;
      changes[m].time + limits.cooldown <= changes[n].time
  {
    RunInv(limits, START, steps);
  }

  /** Once a user has a name, no run takes it away while the user is in the table. */
  lemma {:induction false} NameStays(limits: Limits, s: State, steps: seq<Step>, u: UserId)
    requires Positive(limits) && IsRun(limits, s, steps) && u in s.users && s.users[u].name != ""
    requires forall k | 0 <= k < |steps| :: !(steps[k].Leave? && steps[k].u == u)
    ensures u in Run(limits, s, steps).users && Run(limits, s, steps).users[u].name != ""
    decreases steps
  {
    if steps != [] {
      NamedNext(limits, s, steps[0], u);
      hide Next, Enabled;
      NameStays(limits, Next(limits, s, steps[0]), steps[1..], u);
    }
  }

  lemma NamedNext(limits: Limits, s: State, step: Step, u: UserId)
    requires Positive(limits) && Enabled(s, step) && u in s.users && s.users[u].name != ""
    requires !(step.Leave? && step.u == u)
    ensures u in Next(limits, s, step).users && Next(limits, s, step).users[u].name != ""
  {}

  /** A username command of a user without a name leaves the user nameless exactly when the address is cooling
      down, or the name asked for is refused and no drawn guest name is free. */
  lemma FirstName(limits: Limits, s: State, step: Step)
    requires Positive(limits) && Enabled(s, step) && step.Username? && s.users[step.u].name == ""
    ensures Next(limits, s, step).users[step.u].name == "" <==>
            (CoolingDown(limits, s, s.users[step.u].ip, step.test) ||
             ((!Acceptable(step.newUsername, limits) || Taken(s.users, step.newUsername, step.u)) &&
              forall k | 0 <= k < |step.draws| :: Taken(s.users, Guest(step.draws[k] % GUESTS), step.u)))
  {
    hide Taken, GoodContent, CoolingDown;
    assert forall k | 0 <= k < |step.draws| :: |Guest(step.draws[k] % GUESTS)| > 0;
  }

  /** In terms of the accepted changes: an address cools down from the clock's epoch and from each of them. */
  lemma CoolingDownIs(limits: Limits, s: State, ip: Address, test: nat)
    requires Positive(limits) && Inv(limits, s)
    ensures CoolingDown(limits, s, ip, test) <==>
            test < limits.cooldown || exists c | c in s.changes :: c.ip == ip && test < c.time + limits.cooldown
  {
    hide Unique, GoodNames;
    var last := LastRename(s, ip);
    assert last == 0 || Change(ip, last) in s.changes;
  }

  /** When a username command gives the name it asks for: the address has not changed a name within the
      cooldown, the name is new to the user, within the limits, made of printable words with one space between
      them, and nobody else who can be reached has it. */
  ghost predicate Deserved(limits: Limits, s: State, u: UserId, name: string, test: nat)
    requires u in s.users
  {
    && limits.cooldown <= test
    && (forall c | c in s.changes && c.ip == s.users[u].ip :: c.time + limits.cooldown <= test)
    && (s.users[u].name == "" || s.users[u].name != name)
    && limits.minLength <= |name| <= limits.maxLength
    && Printable(name) && Streams.Spaced(Streams.Words(name)) == name + " "
    && forall v | v in s.users && v != u && s.users[v].connected && s.users[v].live :: s.users[v].name != name
  }

  /** The first of the drawn numbers whose guest name is free. */
  ghost predicate Drawn(s: State, u: UserId, draws: seq<nat>, k: nat) {
    k < |draws| && !Taken(s.users, Guest(draws[k] % 100_000), u) &&
    forall i | 0 <= i < k :: Taken(s.users, Guest(draws[i] % 100_000), u)
  }

  /** A username command gives the name it asks for and notes the change if and only if that is deserved.
      Otherwise names stay, except that a user without a name may get the first free guest name drawn. */
  lemma Accepted(limits: Limits, s: State, step: Step)
    requires Positive(limits) && Inv(limits, s) && Enabled(s, step) && step.Username?
    ensures var u, t := step.u, Next(limits, s, step); var user := s.users[u];
      if Deserved(limits, s, u, step.newUsername, step.test)
      then t.changes == s.changes + [Change(user.ip, step.accept)] &&
           t.users == s.users[u := user.(name := step.newUsername)] && t.clock == step.accept
      else t.changes == s.changes && t.clock == step.test &&
           (t.users == s.users ||
            (user.name == "" && exists k: nat | Drawn(s, u, step.draws, k) ::
               t.users == s.users[u := user.(name := Guest(step.draws[k] % 100_000))]))
  {
    var user, name := s.users[step.u], step.newUsername;
    DeservedIs(limits, s, step.u, name, step.test);
    var k := FirstFree(s.users, step.draws, step.u);
    hide Inv, CoolingDown, Acceptable, Guest, Deserved;
    assert k < |step.draws| ==> Drawn(s, step.u, step.draws, k);
  }

  lemma DeservedIs(limits: Limits, s: State, u: UserId, name: string, test: nat)
    requires Positive(limits) && Inv(limits, s) && u in s.users
    ensures Deserved(limits, s, u, name, test) <==>
            !CoolingDown(limits, s, s.users[u].ip, test) && !(name == s.users[u].name && s.users[u].name != "") &&
            Acceptable(name, limits) && !Taken(s.users, name, u)
  {
    CoolingDownIs(limits, s, s.users[u].ip, test);
    if name != "" {
      GoodContentIs(name);
    }
    hide Inv, CoolingDown, GoodContent, Printable;
  }

  /** The outcome tells the cases apart. */
  lemma OutcomeMeans(limits: Limits, s: State, step: Step)
    requires Positive(limits) && Enabled(s, step) && step.Username?
    ensures var u, t := step.u, Next(limits, s, step);
      var outcome := Rename(limits, s, u, step.newUsername, step.test, step.accept, step.draws).1;
      match outcome
      case Renamed => |t.changes| > |s.changes|
      case GuestGiven => t.changes == s.changes && t.users != s.users
      case Drawing => t.changes == s.changes && t.users == s.users && s.users[u].name == "" &&
                      !CoolingDown(limits, s, s.users[u].ip, step.test)
      case Refused => t.changes == s.changes && t.users == s.users &&
                      (s.users[u].name != "" || CoolingDown(limits, s, s.users[u].ip, step.test))
  {
    hide Taken, Acceptable, CoolingDown;
    var u, k := step.u, FirstFree(s.users, step.draws, step.u);
    if s.users[u].name == "" && k < |step.draws| {
      assert |Guest(step.draws[k] % GUESTS)| > 0;
      hide Guest;
    }
  }

  /** Whoever connects has no name yet and can be reached; leaving changes nothing but that. */
  lemma ComeAndGo(limits: Limits, s: State, step: Step)
    requires Positive(limits) && Enabled(s, step) && !step.Username?
    ensures var u, t := step.u, Next(limits, s, step);
      t.(users := s.users) == s && t.users - {u} == s.users - {u} &&
      if step.Connect?
      then u in t.users && t.users[u].name == "" && t.users[u].ip == step.ip &&
           t.users[u].connected && t.users[u].live
      else (u in t.users <==> step.registered) &&
           (step.registered ==> t.users[u].name == s.users[u].name && t.users[u].ip == s.users[u].ip &&
                                t.users[u].connected == step.connected && t.users[u].live == step.live)
  {
    assert Next(limits, s, step).users - {step.u} == s.users - {step.u};
  }

  // ----- The handlers as code

  lemma SetTwice(m: map<Address, nat>, ip: Address, a: nat, b: nat)
    ensures m[ip := a][ip := b] == m[ip := b]
  {}

  class Directory {
    const limits: Limits
    var users: Users
    var lastRename: map<Address, nat>
    ghost var clock: nat
    ghost var changes: seq<Change>

    ghost function View(): State
      reads this
    {
      State(users, lastRename, clock, changes)
    }

    ghost predicate Valid()
      reads this
    {
      Positive(limits) && Inv(limits, View())
    }

    constructor (limits: Limits)
      requires Positive(limits)
      ensures Valid() && View() == START && this.limits == limits
    {
      this.limits := limits;
      users, lastRename, clock, changes := map[], map[], 0, [];
    }

    method OnConnect(u: UserId, ip: Address)
      requires Valid() && Enabled(View(), Connect(u, ip))
      modifies this
      ensures Valid() && View() == Next(limits, old(View()), Connect(u, ip))
    {
      NextInv(limits, View(), Connect(u, ip));
      hide Inv;
      users := users[u := User("", ip, true, true)];
    }

    /** The emulator marks a user as gone, the connection expires, or the table drops the entry. */
    method OnLeave(u: UserId, connected: bool, live: bool, registered: bool)
      requires Valid() && Enabled(View(), Leave(u, connected, live, registered))
      modifies this
      ensures Valid() && View() == Next(limits, old(View()), Leave(u, connected, live, registered))
    {
      NextInv(limits, View(), Leave(u, connected, live, registered));
      hide Inv;
      if registered {
        users := users[u := users[u].(connected := connected, live := live)];
      } else {
        users := users - {u};
      }
    }

    method UsernameTaken(name: string, self: UserId) returns (taken: bool)
      ensures taken == Taken(users, name, self)
    {
      var rest := users.Keys;
      while rest != {}
        invariant rest <= users.Keys
        invariant forall u | u in users && u !in rest ::
          !(u != self && users[u].name == name && users[u].connected && users[u].live)
        decreases rest
      {
        var u :| u in rest;
        if u != self && users[u].name == name && users[u].connected && users[u].live {
          return true;
        }
        rest := rest - {u};
      }
      return false;
    }

    /** The tests on size, on content and on the other users. */
    method MayHave(newUsername: string, u: UserId) returns (good: bool)
      requires Positive(limits)
      ensures good == (Acceptable(newUsername, limits) && !Taken(users, newUsername, u))
    {
      if |newUsername| > limits.maxLength || |newUsername| < limits.minLength || !GoodContent(newUsername) {
        return false;
      }
      var taken := UsernameTaken(newUsername, u);
      return !taken;
    }

    /** Draw guest names until one is free. */
    method DrawGuest(u: UserId, draws: seq<nat>) returns (outcome: Outcome)
      requires u in users
      modifies `users
      ensures (users, outcome) == GiveGuest(old(users), u, draws)
    {
      var k := 0;
      while k < |draws|
        invariant k <= |draws| && users == old(users)
        invariant FirstFree(users, draws, u) == k + FirstFree(users, draws[k..], u)
      {
        var validUsername := "guest" + Print(draws[k] % GUESTS);
        var taken := UsernameTaken(validUsername, u);
        if !taken {
          users := users[u := users[u].(name := validUsername)];
          return GuestGiven;
        }
        assert draws[k..][1..] == draws[k + 1..];
        k := k + 1;
      }
      return Drawing;
    }

    /** The username case of QueueThread; test and accept are its two clock reads. */
    method HandleUsername(u: UserId, newUsername: string, test: nat, accept: nat, draws: seq<nat>)
      returns (outcome: Outcome)
      requires Valid() && Enabled(View(), Username(u, newUsername, test, accept, draws))
      modifies this
      ensures Valid() && View() == Next(limits, old(View()), Username(u, newUsername, test, accept, draws))
      ensures outcome == Rename(limits, old(View()), u, newUsername, test, accept, draws).1
    {
      NextInv(limits, View(), Username(u, newUsername, test, accept, draws));
      hide Inv, Acceptable, Taken, GiveGuest;
      var ip, oldUsername := users[u].ip, users[u].name;
      clock := test;
      LookUp(ip);
      if lastRename[ip] + limits.cooldown > test {
        return Refused;
      }
      var justJoined := oldUsername == "";
      if newUsername == oldUsername && !justJoined {
        return Refused;
      }
      var good := MayHave(newUsername, u);
      if !good {
        if justJoined {
          outcome := DrawGuest(u, draws);
          return;
        }
        return Refused;
      }
      users := users[u := users[u].(name := newUsername)];
      clock, lastRename, changes := accept, lastRename[ip := accept], changes + [Change(ip, accept)];
      SetTwice(old(lastRename), ip, LastRename(old(View()), ip), accept);
      outcome := Renamed;
    }

    /** Reading the table enters the default for an address that it does not hold. */
    method LookUp(ip: Address)
      modifies `lastRename
      ensures ip in lastRename && lastRename == old(lastRename)[ip := LastRename(old(View()), ip)]
    {
      if ip !in lastRename {
        lastRename := lastRename[ip := 0];
      }
    }
  }
}
