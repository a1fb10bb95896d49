/** Who owns a pooled connection (internal/cli/websocket_requester.go, internal/cli/sse_requester.go
    on top of internal/pool/pool.go): any number of goroutines run Do on one requester and interleave
    at every pool operation and every network operation. Clients are numbered as they are made. */
module PoolUsers {
  import opened Pool

  /** What one Do does with its client: send so many messages, with a pause after each or not, and maybe
      receive, or read events. */
  datatype Job = WebSocket(messages: nat, pauses: bool, receives: bool) | EventSource(maxEvents: int)

  datatype Config = Config(size: nat, job: Job)

  function Goal(job: Job): (goal: nat)
    ensures job.EventSource? ==> goal > 0
  {
    if job.WebSocket? then job.messages else if job.maxEvents <= 0 then 100 else job.maxEvents
  }

  datatype Status = New | Open | Closed

  /** Bookkeeping: where a client was last put. The invariant ties it to the shelves and to what the
      goroutines hold. */
  datatype Place = Shelved(key: string) | With(user: nat) | Dropped

  datatype Record = Record(status: Status, place: Place)

  /** Successful sends or reads, whether the receive loop is reached, whether the client still counts
      as taken from the pool, whether it replaced a stale one. */
  datatype Progress = Progress(done: nat, receiving: bool, reused: bool, renewed: bool)

  datatype User =
    | Outside
    | Fetched(key: string, client: nat)
    | Working(key: string, client: nat, progress: Progress)
    | Reconnecting(key: string, client: nat, spare: nat)
    | Finishing(key: string, client: nat, failed: bool, done: nat)

  datatype State = State(shelves: Shelves<nat>, clients: seq<Record>, users: seq<User>, closed: bool)

  // ---------------------------------------------------------------- the steps

  /** How one send, receive or read ends. `TimedOut`: it fails and its context has ended (or its
      deadline passed). `Interrupted`: the context ends before a send, while waiting, or after a read. */
  datatype Outcome = Succeeded | Failed | TimedOut | Interrupted

  datatype Action =
    | Get(key: string)
    | Connect(ok: bool)
    | Work(outcome: Outcome)
    | Reconnect(ok: bool, resent: bool)
    | Finish

  datatype Step = By(user: nat, action: Action) | ClosePool

  /** The failure that makes Do believe the connection went stale in the pool. */
  predicate LooksStale(job: Job, p: Progress, outcome: Outcome)
  {
    p.reused && p.done == 0 < Goal(job) && !p.receiving && (outcome == Failed || outcome == TimedOut)
  }

  /** The context is looked at once more after the last event, and in the pause after the last message;
      there is no pause for a single message. */
  predicate EndsWithACheck(job: Job)
  {
    job.EventSource? || (job.pauses && job.messages > 1)
  }

  /** Where the loop goes when the connection does not look stale. */
  function Advance(job: Job, key: string, client: nat, p: Progress, outcome: Outcome): User
  {
    if p.receiving then
      if outcome == Succeeded then Working(key, client, p) else Finishing(key, client, outcome == Failed, p.done)
    else if p.done >= Goal(job) then
      if outcome == Interrupted && EndsWithACheck(job) then
        Finishing(key, client, true, p.done)
      else if job.WebSocket? && job.receives then
        Working(key, client, p.(receiving := true))
      else
        Finishing(key, client, false, p.done)
    else
      match outcome
      case Succeeded => Working(key, client, p.(done := p.done + 1))
      case TimedOut => Finishing(key, client, job.WebSocket?, p.done)
      case _ => Finishing(key, client, true, p.done)
  }

  predicate Valid(s: State)
  {
    && (forall key, i: nat | key in s.shelves && i < |s.shelves[key]| :: s.shelves[key][i] < |s.clients|)
    && (forall u: nat | u < |s.users| && !s.users[u].Outside? :: s.users[u].client < |s.clients|)
    && (forall u: nat | u < |s.users| && s.users[u].Reconnecting? :: s.users[u].spare < |s.clients|)
  }

  predicate Enabled(s: State, step: Step)
  {
    && !s.closed
    && (step.By? ==> step.user < |s.users| && Ready(s.users[step.user], step.action))
  }

  predicate Ready(user: User, a: Action)
  {
    match a
    case Get(_) => user.Outside?
    case Connect(_) => user.Fetched?
    case Work(_) => user.Working?
    case Reconnect(_, _) => user.Reconnecting?
    case Finish => user.Finishing?
  }

  function Apply(c: Config, s: State, step: Step): State
    requires Valid(s) && Enabled(s, step)
  {
    if step.ClosePool? then
      ApplyClosePool(s)
    else
      match step.action
      case Get(key) => ApplyGet(s, step.user, key)
      case Connect(ok) => ApplyConnect(s, step.user, ok)
      case Work(outcome) => ApplyWork(c, s, step.user, outcome)
      case Reconnect(ok, resent) => ApplyReconnect(c, s, step.user, ok, resent)
      case Finish => ApplyFinish(c, s, step.user)
  }

  function ApplyGet(s: State, u: nat, key: string): State
    requires Valid(s) && u < |s.users|
  {
    var shelf := Shelf(s.shelves, key);
    if shelf == [] then
      s.(shelves := Taken(s.shelves, key),
         clients := s.clients + [Record(New, With(u))],
         users := s.users[u := Fetched(key, |s.clients|)])
    else
      s.(shelves := Taken(s.shelves, key),
         clients := s.clients[shelf[0] := s.clients[shelf[0]].(place := With(u))],
         users := s.users[u := Working(key, shelf[0], Progress(0, false, true, false))])
  }

  function ApplyConnect(s: State, u: nat, ok: bool): State
    requires Valid(s) && u < |s.users| && s.users[u].Fetched?
  {
    var Fetched(key, client) := s.users[u];
    s.(clients := s.clients[client := if ok then Record(Open, With(u)) else Record(New, Dropped)],
       users := s.users[u := if ok then Working(key, client, Progress(0, false, false, false)) else Outside])
  }

  function ApplyWork(c: Config, s: State, u: nat, outcome: Outcome): State
    requires Valid(s) && u < |s.users| && s.users[u].Working?
  {
    var Working(key, client, p) := s.users[u];
    if LooksStale(c.job, p, outcome) then
      s.(clients := s.clients[client := Record(Closed, With(u))] + [Record(New, With(u))],
         users := s.users[u := Reconnecting(key, client, |s.clients|)])
    else
      s.(users := s.users[u := Advance(c.job, key, client, p, outcome)])
  }

  /** A WebSocket Do sends the first message again, an event source goes back to reading. */
  function ApplyReconnect(c: Config, s: State, u: nat, ok: bool, resent: bool): State
    requires Valid(s) && u < |s.users| && s.users[u].Reconnecting?
  {
    var Reconnecting(key, client, spare) := s.users[u];
    if !ok then
      s.(clients := s.clients[spare := Record(New, Dropped)],
         users := s.users[u := Finishing(key, client, true, 0)])
    else
      s.(clients := s.clients[client := Record(Closed, Dropped)][spare := Record(Open, With(u))],
         users := s.users[u :=
           if c.job.WebSocket? && !resent then
             Finishing(key, spare, true, 0)
           else
             Working(key, spare, Progress(if c.job.WebSocket? then 1 else 0, false, false, true))])
  }

  /** Close after an error, Put otherwise. */
  function ApplyFinish(c: Config, s: State, u: nat): State
    requires Valid(s) && u < |s.users| && s.users[u].Finishing?
  {
    var Finishing(key, client, failed, _) := s.users[u];
    var kept := !failed && HasRoom(s.shelves, c.size, key);
    s.(shelves := if failed then s.shelves else Returned(s.shelves, c.size, key, client),
       clients := s.clients[client :=
         if kept then s.clients[client].(place := Shelved(key)) else Record(Closed, Dropped)],
       users := s.users[u := Outside])
  }

  /** Pool Close is the end of the pool: every idle client is closed. */
  function ApplyClosePool(s: State): State
  {
    s.(shelves := map key | key in s.shelves :: [],
       clients := seq(|s.clients|, i requires 0 <= i < |s.clients| =>
                    if s.clients[i].place.Shelved? then Record(Closed, Dropped) else s.clients[i]),
       closed := true)
  }

  function Initial(users: nat): State
  {
    State(map[], [], seq(users, _ => Outside), false)
  }

  ghost predicate Reachable(c: Config, s: State)
  {
    exists users: nat, steps: seq<Step> :: Runs(c, Initial(users), steps, s)
  }

  ghost predicate Runs(c: Config, from: State, steps: seq<Step>, s: State)
  {
    if steps == [] then
      from == s
    else
      exists mid: State ::
        && Runs(c, from, steps[..|steps| - 1], mid)
        && Valid(mid) && Enabled(mid, steps[|steps| - 1]) && Apply(c, mid, steps[|steps| - 1]) == s
  }

  // ---------------------------------------------------------------- the invariant

  predicate Holds(s: State, u: nat, client: nat, status: Status)
  {
    client < |s.clients| && s.clients[client] == Record(status, With(u))
  }

  predicate UserOk(c: Config, s: State, u: nat)
    requires u < |s.users|
  {
    match s.users[u]
    case Outside => true
    case Fetched(key, client) => key in s.shelves && Holds(s, u, client, New)
    case Working(key, client, p) =>
      && key in s.shelves && Holds(s, u, client, Open)
      && p.done <= Goal(c.job) && (p.receiving ==> c.job.WebSocket? && c.job.receives && p.done == Goal(c.job))
      && (p.renewed ==> !p.reused)
    case Reconnecting(key, client, spare) =>
      && key in s.shelves && client != spare && Holds(s, u, client, Closed) && Holds(s, u, spare, New)
      && (c.job.WebSocket? ==> Goal(c.job) > 0)
    case Finishing(key, client, failed, done) =>
      && key in s.shelves && (Holds(s, u, client, Open) || (failed && Holds(s, u, client, Closed)))
      && done <= Goal(c.job) && (!failed && c.job.WebSocket? ==> done == Goal(c.job))
  }

  predicate Owns(user: User, client: nat)
  {
    !user.Outside? && (user.client == client || (user.Reconnecting? && user.spare == client))
  }

  predicate ClientOk(s: State, client: nat)
    requires client < |s.clients|
  {
    match s.clients[client].place
    case Shelved(key) => key in s.shelves && client in s.shelves[key]
    case With(u) => u < |s.users| && Owns(s.users[u], client)
    case Dropped => s.clients[client].status != Open
  }

  predicate ShelfOk(c: Config, s: State, key: string)
    requires key in s.shelves
  {
    var shelf := s.shelves[key];
    && |shelf| <= c.size
    && (forall i: nat | i < |shelf| :: shelf[i] < |s.clients| && s.clients[shelf[i]] == Record(Open, Shelved(key)))
    && (forall i: nat, j: nat | i < j < |shelf| :: shelf[i] != shelf[j])
  }

  ghost predicate Inv(c: Config, s: State)
  {
    && (forall u: nat | u < |s.users| :: UserOk(c, s, u))
    && (forall client: nat | client < |s.clients| :: ClientOk(s, client))
    && (forall key | key in s.shelves :: ShelfOk(c, s, key))
  }

  lemma InvIsValid(c: Config, s: State)
    requires Inv(c, s)
    ensures Valid(s)
  {
    forall u: nat | u < |s.users| && !s.users[u].Outside?
      ensures s.users[u].client < |s.clients| && (s.users[u].Reconnecting? ==> s.users[u].spare < |s.clients|)
    {
      assert UserOk(c, s, u);
    }
    forall key | key in s.shelves ensures ShelfOk(c, s, key) {}
  }

  /** What a step by one user leaves alone: the other users, and the clients that neither that user nor
      (for Get) the shelf has. */
  lemma OthersKeepTheirs(c: Config, s: State, t: State, u: nat, v: nat)
    requires u < |s.users| == |t.users| && v < |s.users| && v != u && t.users[v] == s.users[v]
    requires s.shelves.Keys <= t.shelves.Keys && |s.clients| <= |t.clients|
    requires forall client: nat | client < |s.clients| ::
               s.clients[client].place == With(v) ==> t.clients[client] == s.clients[client]
    requires UserOk(c, s, v)
    ensures UserOk(c, t, v)
  {
  }

  lemma GetKeepsInv(c: Config, s: State, u: nat, key: string)
    requires Inv(c, s) && Valid(s) && u < |s.users| && s.users[u].Outside?
    ensures Inv(c, ApplyGet(s, u, key))
  {
    var t := ApplyGet(s, u, key);
    var shelf := Shelf(s.shelves, key);
    if key in s.shelves { assert ShelfOk(c, s, key); }
    forall v: nat | v < |t.users| ensures UserOk(c, t, v) {
      assert UserOk(c, s, v);
      if v != u { OthersKeepTheirs(c, s, t, u, v); }
    }
    forall client: nat | client < |t.clients| ensures ClientOk(t, client) {
      if client < |s.clients| {
        assert ClientOk(s, client);
        GetKeepsClient(c, s, u, key, client);
      }
    }
    forall other | other in t.shelves ensures ShelfOk(c, t, other) {
      if other in s.shelves { assert ShelfOk(c, s, other); }
    }
  }

  lemma GetKeepsClient(c: Config, s: State, u: nat, key: string, client: nat)
    requires Valid(s) && u < |s.users| && s.users[u].Outside? && client < |s.clients| && ClientOk(s, client)
    requires key in s.shelves ==> ShelfOk(c, s, key)
    ensures ClientOk(ApplyGet(s, u, key), client)
  {
    var t := ApplyGet(s, u, key);
    var shelf := Shelf(s.shelves, key);
    if s.clients[client].place == Shelved(key) && client != shelf[0] {
      assert shelf == [shelf[0]] + shelf[1..];
    }
  }

  lemma ConnectKeepsInv(c: Config, s: State, u: nat, ok: bool)
    requires Inv(c, s) && Valid(s) && u < |s.users| && s.users[u].Fetched?
    ensures Inv(c, ApplyConnect(s, u, ok))
  {
    var t := ApplyConnect(s, u, ok);
    assert UserOk(c, s, u);
    SameShelves(c, s, t);
    forall v: nat | v < |t.users| ensures UserOk(c, t, v) {
      assert UserOk(c, s, v);
      if v != u { OthersKeepTheirs(c, s, t, u, v); }
    }
    forall client: nat | client < |t.clients| ensures ClientOk(t, client) {
      assert ClientOk(s, client);
    }
  }

  /** Shelves stay good when they and the clients on them are left alone. */
  lemma SameShelves(c: Config, s: State, t: State)
    requires Inv(c, s) && t.shelves == s.shelves && |s.clients| <= |t.clients|
    requires forall client: nat | client < |s.clients| && s.clients[client].place.Shelved? ::
               t.clients[client] == s.clients[client]
    ensures forall key | key in t.shelves :: ShelfOk(c, t, key)
  {
    forall key | key in t.shelves ensures ShelfOk(c, t, key) {
      assert ShelfOk(c, s, key);
    }
  }

  lemma WorkKeepsInv(c: Config, s: State, u: nat, outcome: Outcome)
    requires Inv(c, s) && Valid(s) && u < |s.users| && s.users[u].Working?
    ensures Inv(c, ApplyWork(c, s, u, outcome))
  {
    var t := ApplyWork(c, s, u, outcome);
    assert UserOk(c, s, u);
    SameShelves(c, s, t);
    forall v: nat | v < |t.users| ensures UserOk(c, t, v) {
      assert UserOk(c, s, v);
      if v != u { OthersKeepTheirs(c, s, t, u, v); }
    }
    forall client: nat | client < |t.clients| ensures ClientOk(t, client) {
      if client < |s.clients| { assert ClientOk(s, client); }
    }
  }

  lemma ReconnectKeepsInv(c: Config, s: State, u: nat, ok: bool, resent: bool)
    requires Inv(c, s) && Valid(s) && u < |s.users| && s.users[u].Reconnecting?
    ensures Inv(c, ApplyReconnect(c, s, u, ok, resent))
  {
    var t := ApplyReconnect(c, s, u, ok, resent);
    assert UserOk(c, s, u);
    SameShelves(c, s, t);
    forall v: nat | v < |t.users| ensures UserOk(c, t, v) {
      assert UserOk(c, s, v);
      if v != u { OthersKeepTheirs(c, s, t, u, v); }
    }
    forall client: nat | client < |t.clients| ensures ClientOk(t, client) {
      assert ClientOk(s, client);
    }
  }

  lemma FinishKeepsInv(c: Config, s: State, u: nat)
    requires Inv(c, s) && Valid(s) && u < |s.users| && s.users[u].Finishing?
    ensures Inv(c, ApplyFinish(c, s, u))
  {
    var t := ApplyFinish(c, s, u);
    var Finishing(key, client, failed, _) := s.users[u];
    assert UserOk(c, s, u);
    forall v: nat | v < |t.users| ensures UserOk(c, t, v) {
      assert UserOk(c, s, v);
      if v != u { OthersKeepTheirs(c, s, t, u, v); }
    }
    forall other: nat | other < |t.clients| ensures ClientOk(t, other) {
      assert ClientOk(s, other);
      if other == client && key in t.shelves && t.clients[client].place.Shelved? {
        assert t.shelves[key][|s.shelves[key]|] == client;
      }
    }
    forall other | other in t.shelves ensures ShelfOk(c, t, other) {
      assert ShelfOk(c, s, other);
    }
  }

  lemma ClosePoolKeepsInv(c: Config, s: State)
    requires Inv(c, s)
    ensures Inv(c, ApplyClosePool(s))
  {
    var t := ApplyClosePool(s);
    forall u: nat | u < |t.users| ensures UserOk(c, t, u) {
      assert UserOk(c, s, u);
    }
    forall client: nat | client < |t.clients| ensures ClientOk(t, client) {
      assert ClientOk(s, client);
    }
  }

  lemma StepKeepsInv(c: Config, s: State, step: Step)
    requires Inv(c, s) && Valid(s) && Enabled(s, step)
    ensures Inv(c, Apply(c, s, step))
  {
    if step.ClosePool? {
      ClosePoolKeepsInv(c, s);
    } else {
      match step.action
      case Get(key) => GetKeepsInv(c, s, step.user, key);
      case Connect(ok) => ConnectKeepsInv(c, s, step.user, ok);
      case Work(outcome) => WorkKeepsInv(c, s, step.user, outcome);
      case Reconnect(ok, resent) => ReconnectKeepsInv(c, s, step.user, ok, resent);
      case Finish => FinishKeepsInv(c, s, step.user);
    }
  }

  lemma {:induction false} RunKeepsInv(c: Config, from: State, steps: seq<Step>, s: State)
    requires Inv(c, from) && Runs(c, from, steps, s)
    ensures Inv(c, s)
  {
    if steps != [] {
      var n := |steps| - 1;
      var mid: State :| && Runs(c, from, steps[..n], mid)
                        && Valid(mid) && Enabled(mid, steps[n]) && Apply(c, mid, steps[n]) == s;
      RunKeepsInv(c, from, steps[..n], mid);
      StepKeepsInv(c, mid, steps[n]);
    }
  }

  lemma ReachableInv(c: Config, s: State)
    requires Reachable(c, s)
    ensures Inv(c, s) && Valid(s)
  {
    var users: nat, steps: seq<Step> :| Runs(c, Initial(users), steps, s);
    RunKeepsInv(c, Initial(users), steps, s);
    InvIsValid(c, s);
  }

  // ---------------------------------------------------------------- who owns a connection

  predicate OnShelf(s: State, key: string, i: nat, client: nat)
  {
    key in s.shelves && i < |s.shelves[key]| && s.shelves[key][i] == client
  }

  predicate HeldBy(s: State, u: nat, client: nat)
  {
    u < |s.users| && Owns(s.users[u], client)
  }

  /** An open connection has an owner, and only one: a slot of one shelf, or one Do in progress. */
  lemma OpenClientHasOneOwner(c: Config, s: State, client: nat)
    requires Reachable(c, s) && client < |s.clients| && s.clients[client].status == Open
    ensures (exists key, i: nat :: OnShelf(s, key, i, client)) <==> !exists u: nat :: HeldBy(s, u, client)
    ensures forall key, i: nat, other, j: nat ::
              OnShelf(s, key, i, client) && OnShelf(s, other, j, client) ==> key == other && i == j
    ensures forall u: nat, v: nat :: HeldBy(s, u, client) && HeldBy(s, v, client) ==> u == v
  {
    ReachableInv(c, s);
    assert ClientOk(s, client);
    forall key, i: nat | OnShelf(s, key, i, client) ensures s.clients[client].place == Shelved(key) {
      assert ShelfOk(c, s, key);
    }
    forall key, i: nat, other, j: nat | OnShelf(s, key, i, client) && OnShelf(s, other, j, client)
      ensures key == other && i == j
    {
      assert ShelfOk(c, s, key);
    }
    forall u: nat | HeldBy(s, u, client) ensures s.clients[client].place == With(u) {
      assert UserOk(c, s, u);
    }
    match s.clients[client].place
    case Shelved(key) =>
      var i: nat :| i < |s.shelves[key]| && s.shelves[key][i] == client;
      assert OnShelf(s, key, i, client);
    case With(u) =>
      assert HeldBy(s, u, client);
  }

  /** Only open connections wait on a shelf, at most as many as the pool's size; a Do only ever sends
      or reads on an open connection; and the shelf it will Put to exists. */
  lemma OnlyOpenClientsAreUsed(c: Config, s: State, key: string, u: nat)
    requires Reachable(c, s)
    ensures key in s.shelves ==> |s.shelves[key]| <= c.size
    ensures forall i: nat, client: nat :: OnShelf(s, key, i, client) ==>
              client < |s.clients| && s.clients[client].status == Open
    ensures u < |s.users| && s.users[u].Working? ==> s.clients[s.users[u].client].status == Open
    ensures u < |s.users| && s.users[u].Finishing? ==> s.users[u].key in s.shelves
    ensures u < |s.users| && s.users[u].Finishing? && !s.users[u].failed ==>
              s.clients[s.users[u].client].status == Open
  {
    ReachableInv(c, s);
    if key in s.shelves { assert ShelfOk(c, s, key); }
    if u < |s.users| { assert UserOk(c, s, u); }
  }

  /** Every way out of Do gives the connection up: it is back on the shelf of its key, open, or it is
      closed, or it never was connected. */
  lemma EveryPathEndsInPutOrClose(c: Config, s: State, step: Step, client: nat)
    requires Reachable(c, s) && Valid(s) && Enabled(s, step) && step.By?
    requires HeldBy(s, step.user, client) && Apply(c, s, step).users[step.user].Outside?
    ensures var t, key := Apply(c, s, step), s.users[step.user].key;
            && (forall u: nat :: !HeldBy(t, u, client))
            && client < |t.clients|
            && (t.clients[client].status == Open <==> key in t.shelves && client in t.shelves[key])
            && (t.clients[client].status == Open <==>
                  s.users[step.user].Finishing? && !s.users[step.user].failed && HasRoom(s.shelves, c.size, key))
  {
    ReachableInv(c, s);
    var t, u, key := Apply(c, s, step), step.user, s.users[step.user].key;
    assert UserOk(c, s, u);
    StepKeepsInv(c, s, step);
    assert ClientOk(t, client);
    if key in t.shelves { assert ShelfOk(c, t, key); }
    forall v: nat | v < |t.users| ensures !Owns(t.users[v], client) {
      assert UserOk(c, t, v);
    }
    if t.clients[client].status == Open {
      assert t.clients[client].place == Shelved(key);
    } else if key in t.shelves {
      assert client !in t.shelves[key];
    }
  }

  /** A WebSocket goes back to the pool only after every configured message was sent, a resent first
      message included; an event source delivers no more events than configured. */
  lemma PutOnlyAfterAllMessages(c: Config, s: State, u: nat)
    requires Reachable(c, s) && u < |s.users| && s.users[u].Finishing?
    ensures c.job.WebSocket? && !s.users[u].failed ==> s.users[u].done == c.job.messages
    ensures s.users[u].done <= Limit(c.job)
  {
    ReachableInv(c, s);
    assert UserOk(c, s, u);
  }

  /** How many messages a WebSocket sends, or events an event source reads: unless configured, 100. */
  function Limit(job: Job): int
  {
    match job
    case WebSocket(messages, _, _) => messages
    case EventSource(maxEvents) => if maxEvents > 0 then maxEvents else 100
  }

  /** After a success the loop goes on below the limit; at the limit a WebSocket that is to receive does so,
      for as long as it succeeds, and every other Do ends well. */
  lemma SuccessGoesOn(c: Config, s: State, u: nat)
    requires Reachable(c, s) && Valid(s) && Enabled(s, By(u, Work(Succeeded)))
    ensures var before, after := s.users[u], Apply(c, s, By(u, Work(Succeeded))).users[u];
            && after.key == before.key && !after.Outside? && after.client == before.client
            && if before.progress.done < Limit(c.job) then
                 after.Working? && after.progress.done == before.progress.done + 1 && !after.progress.receiving
               else if c.job.WebSocket? && c.job.receives then
                 after.Working? && after.progress.receiving
               else
                 after.Finishing? && !after.failed
  {
    ReachableInv(c, s);
    assert UserOk(c, s, u);
  }

  /** A context that ends after the last event, or in the pause after the last message, is still an
      error: the connection is given up although everything was sent or read. */
  lemma LateInterruptionFails(c: Config, s: State, u: nat)
    requires Reachable(c, s) && Valid(s) && Enabled(s, By(u, Work(Interrupted)))
    requires s.users[u].progress.done == Goal(c.job) && !s.users[u].progress.receiving
    ensures var after := Apply(c, s, By(u, Work(Interrupted))).users[u];
            after.Finishing? && after.failed <==> c.job.EventSource? || (c.job.pauses && c.job.messages > 1)
  {
    ReachableInv(c, s);
    assert UserOk(c, s, u);
  }

  /** Running out of time is expected while reading, whether events or replies, and costs no connection;
      it is an error while sending. Any other failure is an error, and every outcome but success ends
      the loop. */
  lemma OnlyReadingMayTimeOut(c: Config, s: State, u: nat, outcome: Outcome)
    requires Reachable(c, s) && Valid(s) && Enabled(s, By(u, Work(outcome))) && outcome != Succeeded
    requires var p := s.users[u].progress;
             && (p.receiving || p.done < Goal(c.job))
             && !(p.reused && p.done == 0 && !p.receiving && outcome != Interrupted)
    ensures var after, reading := Apply(c, s, By(u, Work(outcome))).users[u],
                                  c.job.EventSource? || s.users[u].progress.receiving;
            && after.Finishing? && after.client == s.users[u].client
            && (outcome == Failed ==> after.failed)
            && (outcome == TimedOut ==> after.failed == !reading)
            && (outcome == Interrupted ==> after.failed == !s.users[u].progress.receiving)
  {
    ReachableInv(c, s);
    assert UserOk(c, s, u);
  }

  /** A connection is given up as stale exactly when it came from the pool, nothing was sent or read on it
      yet, and that first attempt fails, whether or not the context has ended; any other way it is not. */
  lemma StaleExactlyWhenReused(c: Config, s: State, u: nat, outcome: Outcome)
    requires Reachable(c, s) && Valid(s) && Enabled(s, By(u, Work(outcome)))
    ensures var p, t := s.users[u].progress, Apply(c, s, By(u, Work(outcome)));
            && (t.users[u].Reconnecting? <==>
                  p.reused && p.done == 0 < Limit(c.job) && (outcome == Failed || outcome == TimedOut))
            && (t.users[u].Reconnecting? ==>
                  && t.clients[s.users[u].client].status == Closed && t.clients[t.users[u].spare].status == New
                  && t.users[u].spare == |s.clients|)
  {
    ReachableInv(c, s);
    assert UserOk(c, s, u);
  }

  /** The spare goes on exactly when it connects and, on a WebSocket, the first message is sent again, which
      counts; otherwise Do fails. The stale client stays closed. */
  lemma ReconnectGoesOnExactly(c: Config, s: State, u: nat, ok: bool, resent: bool)
    requires Reachable(c, s) && Valid(s) && Enabled(s, By(u, Reconnect(ok, resent)))
    ensures var before, t := s.users[u], Apply(c, s, By(u, Reconnect(ok, resent)));
            && (t.users[u].Working? <==> ok && (c.job.EventSource? || resent))
            && (t.users[u].Working? ==>
                  && t.users[u].client == before.spare && !t.users[u].progress.reused
                  && t.users[u].progress.done == if c.job.WebSocket? then 1 else 0)
            && (!t.users[u].Working? ==> t.users[u].Finishing? && t.users[u].failed)
            && t.clients[before.client].status == Closed
  {
    ReachableInv(c, s);
    assert UserOk(c, s, u);
  }

  /** Do goes on with a new client exactly when it connects; if not, Do is over. */
  lemma ConnectGoesOnExactly(c: Config, s: State, u: nat, ok: bool)
    requires Valid(s) && Enabled(s, By(u, Connect(ok)))
    ensures var after := Apply(c, s, By(u, Connect(ok))).users[u];
            if ok then after.Working? && after.progress.done == 0 && !after.progress.receiving else after.Outside?
  {
  }

  /** No new Get by this user. */
  predicate SameDo(steps: seq<Step>, u: nat)
  {
    forall step <- steps :: step.By? && step.user == u ==> !step.action.Get?
  }

  /** A Do that got a client from the pool replaces it if its first attempt fails. */
  lemma PooledMayBeReplaced(c: Config, s: State, u: nat, key: string)
    requires Reachable(c, s) && Valid(s) && Enabled(s, By(u, Get(key))) && Limit(c.job) > 0
    ensures var t := Apply(c, s, By(u, Get(key)));
            if key in s.shelves && s.shelves[key] != [] then
              && t.users[u].Working? && t.users[u].client == s.shelves[key][0]
              && Valid(t) && Apply(c, t, By(u, Work(Failed))).users[u].Reconnecting?
            else
              t.users[u] == Fetched(key, |s.clients|)
  {
    ReachableNext(c, s, By(u, Get(key)));
  }

  lemma LastStep(c: Config, from: State, steps: seq<Step>, s: State, u: nat) returns (mid: State)
    requires steps != [] && Runs(c, from, steps, s) && SameDo(steps, u)
    ensures var n := |steps| - 1;
            && Runs(c, from, steps[..n], mid) && SameDo(steps[..n], u) && SameDo([steps[n]], u)
            && Valid(mid) && Enabled(mid, steps[n]) && Apply(c, mid, steps[n]) == s
  {
    var n := |steps| - 1;
    mid :| Runs(c, from, steps[..n], mid) && Valid(mid) && Enabled(mid, steps[n]) && Apply(c, mid, steps[n]) == s;
    assert steps[n] in steps && forall step <- steps[..n] :: step in steps;
  }

  /** Neither on a connection from the pool nor replacing one. */
  predicate OnAFreshOne(user: User)
  {
    !user.Reconnecting? && (user.Working? ==> !user.progress.reused)
  }

  lemma StaysOnAFreshOne(c: Config, s: State, u: nat, step: Step)
    requires Valid(s) && Enabled(s, step) && SameDo([step], u) && u < |s.users| && OnAFreshOne(s.users[u])
    ensures var t := Apply(c, s, step); u < |t.users| && OnAFreshOne(t.users[u])
  {
    assert step in [step];
  }

  /** A Do that got a new client never replaces it, whatever happens. */
  lemma {:induction false} FreshIsNeverReplaced(c: Config, s: State, u: nat, steps: seq<Step>, t: State)
    requires u < |s.users| && s.users[u].Fetched? && Runs(c, s, steps, t) && SameDo(steps, u)
    ensures u < |t.users| && !t.users[u].Reconnecting?
    ensures t.users[u].Working? ==> !t.users[u].progress.reused
  {
    if steps != [] {
      var n := |steps| - 1;
      var mid := LastStep(c, s, steps, t, u);
      FreshIsNeverReplaced(c, s, u, steps[..n], mid);
      StaysOnAFreshOne(c, mid, u, steps[n]);
    }
  }

  /** What a Do has sent or read so far. */
  function Progressed(user: User): nat
  {
    match user
    case Working(_, _, p) => p.done
    case Finishing(_, _, _, done) => done
    case _ => 0
  }

  predicate Succeeds(job: Job, step: Step, u: nat)
  {
    step == By(u, Work(Succeeded)) || (job.WebSocket? && step == By(u, Reconnect(true, true)))
  }

  /** The successes of one user: sends, receives or reads, and a first message sent again. */
  function Successes(job: Job, steps: seq<Step>, u: nat): (n: nat)
  {
    if steps == [] then 0
    else Successes(job, steps[..|steps| - 1], u) + if Succeeds(job, steps[|steps| - 1], u) then 1 else 0
  }

  /** A Do that has just got its client, new or from the pool. */
  predicate Begun(user: User)
  {
    user.Fetched? || (user.Working? && user.progress == Progress(0, false, true, false))
  }

  function AtMost(limit: int, n: int): int { if n < limit then n else limit }

  lemma StepProgresses(c: Config, s: State, u: nat, step: Step)
    requires Reachable(c, s) && Valid(s) && Enabled(s, step) && SameDo([step], u) && u < |Apply(c, s, step).users|
    requires !Apply(c, s, step).users[u].Outside?
    ensures u < |s.users| && !s.users[u].Outside?
    ensures Progressed(Apply(c, s, step).users[u])
         == AtMost(Limit(c.job), Progressed(s.users[u]) + if Succeeds(c.job, step, u) then 1 else 0)
  {
    assert step in [step];
    ReachableInv(c, s);
    assert UserOk(c, s, u);
  }

  lemma {:induction false} RunStaysReachable(c: Config, s: State, steps: seq<Step>, t: State)
    requires Reachable(c, s) && Runs(c, s, steps, t)
    ensures Reachable(c, t)
  {
    if steps != [] {
      var n := |steps| - 1;
      var mid: State :| && Runs(c, s, steps[..n], mid)
                        && Valid(mid) && Enabled(mid, steps[n]) && Apply(c, mid, steps[n]) == t;
      RunStaysReachable(c, s, steps[..n], mid);
      ReachableNext(c, mid, steps[n]);
    }
  }

  /** What a Do has sent or read is what it succeeded in, up to the limit: successes beyond it are messages
      received. */
  lemma {:induction false} ProgressIsSuccess(c: Config, s: State, u: nat, steps: seq<Step>, t: State)
    requires Reachable(c, s) && Runs(c, s, steps, t) && SameDo(steps, u)
    requires u < |s.users| && Begun(s.users[u]) && u < |t.users| && !t.users[u].Outside?
    ensures Progressed(t.users[u]) == AtMost(Limit(c.job), Successes(c.job, steps, u))
  {
    if steps != [] {
      var n := |steps| - 1;
      var mid := LastStep(c, s, steps, t, u);
      RunStaysReachable(c, s, steps[..n], mid);
      StepProgresses(c, mid, u, steps[n]);
      ProgressIsSuccess(c, s, u, steps[..n], mid);
    }
  }

  /** So a WebSocket that goes back to the pool has really sent all its messages since its Do began. */
  lemma PutAfterSendingAll(c: Config, s: State, u: nat, steps: seq<Step>, t: State)
    requires Reachable(c, s) && Runs(c, s, steps, t) && SameDo(steps, u) && c.job.WebSocket?
    requires u < |s.users| && Begun(s.users[u]) && u < |t.users| && t.users[u].Finishing? && !t.users[u].failed
    ensures Successes(c.job, steps, u) >= c.job.messages
  {
    ProgressIsSuccess(c, s, u, steps, t);
    RunStaysReachable(c, s, steps, t);
    PutOnlyAfterAllMessages(c, t, u);
  }

  /** A stale connection is replaced once: after the replacement nothing looks stale any more. */
  lemma StaleOnlyOnce(c: Config, s: State, u: nat, outcome: Outcome)
    requires Reachable(c, s) && Valid(s) && Enabled(s, By(u, Work(outcome)))
    ensures Apply(c, s, By(u, Work(outcome))).users[u].Reconnecting? ==> !s.users[u].progress.renewed
    ensures s.users[u].progress.done <= Limit(c.job)
  {
    ReachableInv(c, s);
    assert UserOk(c, s, u);
  }

  /** When no Do is in progress every open connection waits on a shelf, so closing the pool closes all. */
  lemma IdlePoolClosesEverything(c: Config, s: State)
    requires Reachable(c, s) && !s.closed && Valid(s) && forall u: nat | u < |s.users| :: s.users[u].Outside?
    ensures forall client: nat | client < |s.clients| :: s.clients[client].status == Open ==>
              exists key, i: nat :: OnShelf(s, key, i, client)
    ensures forall client: nat | client < |s.clients| ::
              Apply(c, s, ClosePool).clients[client].status != Open
  {
    forall client: nat | client < |s.clients| && s.clients[client].status == Open
      ensures exists key, i: nat :: OnShelf(s, key, i, client)
    {
      OpenClientHasOneOwner(c, s, client);
    }
    forall client: nat | client < |s.clients| ensures Apply(c, s, ClosePool).clients[client].status != Open {
      CloseLeavesTheCheckedOut(c, s, client);
    }
  }

  /** Exactly the connections that a Do still holds survive the closing of the pool. */
  lemma CloseLeavesTheCheckedOut(c: Config, s: State, client: nat)
    requires Reachable(c, s) && !s.closed && Valid(s) && client < |s.clients|
    ensures Apply(c, s, ClosePool).clients[client].status == Open <==>
              s.clients[client].status == Open && exists u: nat :: HeldBy(s, u, client)
  {
    ReachableInv(c, s);
    assert ClientOk(s, client);
    if s.clients[client].place.With? {
      assert HeldBy(s, s.clients[client].place.user, client);
    }
    forall u: nat | HeldBy(s, u, client) ensures s.clients[client].place == With(u) {
      assert UserOk(c, s, u);
    }
  }

  // ---------------------------------------------------------------- Do comes to an end

  /** Steps left in one Do, not counting messages received. */
  function Left(job: Job, user: User): int
  {
    match user
    case Outside => 0
    case Finishing(_, _, _, _) => 1
    case Working(_, _, p) =>
      if p.receiving then 2 else 3 + Goal(job) - p.done + if p.reused then Goal(job) + 2 else 0
    case Fetched(_, _) => 4 + Goal(job)
    case Reconnecting(_, _, _) => 4 + Goal(job)
  }

  /** Each step of a Do brings its end nearer, except that a WebSocket may receive any number of
      messages before its context ends; the other users are not affected, and a Do can always go on.
      A Do on an event source thus takes at most 2 * maxEvents + 6 steps. */
  lemma DoMovesOn(c: Config, s: State, step: Step)
    requires Reachable(c, s) && Valid(s) && Enabled(s, step) && step.By? && !step.action.Get?
    ensures var before, after := s.users[step.user], Apply(c, s, step).users[step.user];
            && 0 <= Left(c.job, after) && Left(c.job, before) <= 2 * Goal(c.job) + 5
            && (Left(c.job, after) < Left(c.job, before)
                || (after == before && c.job.WebSocket? && before.Working? && before.progress.receiving))
    ensures forall v: nat | v < |s.users| && v != step.user :: Apply(c, s, step).users[v] == s.users[v]
  {
    ReachableInv(c, s);
    assert UserOk(c, s, step.user);
    StepKeepsInv(c, s, step);
    assert UserOk(c, Apply(c, s, step), step.user);
  }

  lemma ReachableNext(c: Config, s: State, step: Step)
    requires Reachable(c, s) && Valid(s) && Enabled(s, step)
    ensures Reachable(c, Apply(c, s, step)) && Valid(Apply(c, s, step))
  {
    var users: nat, steps: seq<Step> :| Runs(c, Initial(users), steps, s);
    RunsSnoc(c, Initial(users), steps, s, step);
    ReachableInv(c, Apply(c, s, step));
  }

  lemma RunsSnoc(c: Config, from: State, steps: seq<Step>, s: State, step: Step)
    requires Runs(c, from, steps, s) && Valid(s) && Enabled(s, step)
    ensures Runs(c, from, steps + [step], Apply(c, s, step))
  {
    assert (steps + [step])[..|steps|] == steps;
  }

  lemma {:induction false} RunsCons(c: Config, s: State, step: Step, steps: seq<Step>, t: State)
    requires Valid(s) && Enabled(s, step) && Runs(c, Apply(c, s, step), steps, t)
    ensures Runs(c, s, [step] + steps, t)
  {
    if steps == [] {
      RunsSnoc(c, s, [], s, step);
      assert [] + [step] == [step] + steps;
    } else {
      var n := |steps| - 1;
      var mid: State :| && Runs(c, Apply(c, s, step), steps[..n], mid)
                        && Valid(mid) && Enabled(mid, steps[n]) && Apply(c, mid, steps[n]) == t;
      RunsCons(c, s, step, steps[..n], mid);
      RunsSnoc(c, s, [step] + steps[..n], mid, steps[n]);
      assert [step] + steps[..n] + [steps[n]] == [step] + steps;
    }
  }

  /** A step that brings a Do nearer to its end. */
  function NextStep(user: User): Action
    requires !user.Outside?
  {
    match user
    case Fetched(_, _) => Connect(false)
    case Working(_, _, _) => Work(Failed)
    case Reconnecting(_, _, _) => Reconnect(false, false)
    case Finishing(_, _, _, _) => Action.Finish
  }

  /** From every reachable state of an open pool a Do in progress can return by its own steps, the other
      users standing still. */
  lemma {:induction false} DoCanReturn(c: Config, s: State, u: nat) returns (steps: seq<Step>, t: State)
    requires Reachable(c, s) && Valid(s) && !s.closed && u < |s.users|
    ensures Runs(c, s, steps, t) && t.users == s.users[u := Outside]
    ensures forall step <- steps :: step.By? && step.user == u
    decreases Left(c.job, s.users[u])
  {
    if s.users[u].Outside? {
      steps, t := [], s;
    } else {
      var step := By(u, NextStep(s.users[u]));
      var next := Apply(c, s, step);
      DoMovesOn(c, s, step);
      ReachableNext(c, s, step);
      steps, t := DoCanReturn(c, next, u);
      RunsCons(c, s, step, steps, t);
      steps := [step] + steps;
    }
  }
}
