/** Cron schedules of test sets (internal/scheduler/manager.go): the manager keeps one registration in
    the cron service for each scheduled set. */
module Schedules {
  import opened Options

  datatype Entry = Entry(id: nat, expr: string)

  datatype Job = Job(setId: string, expr: string)

  /** The cron service, as far as the manager uses it: numbered registrations, numbers never reused. */
  class Cron {
    var jobs: map<nat, Job>
    var nextId: nat
    const accepts: string -> bool

    constructor (accepts: string -> bool)
      ensures jobs == map[] && nextId == 1 && this.accepts == accepts
    {
      jobs, nextId := map[], 1;
      this.accepts := accepts;
    }

    method AddFunc(expr: string, setId: string) returns (id: Option<nat>)
      modifies this
      ensures id == if accepts(expr) then Some(old(nextId)) else None
      ensures if accepts(expr) then
                nextId == old(nextId) + 1 && jobs == old(jobs)[old(nextId) := Job(setId, expr)]
              else
                nextId == old(nextId) && jobs == old(jobs)
    {
      if !accepts(expr) {
        return None;
      }
      id := Some(nextId);
      jobs := jobs[nextId := Job(setId, expr)];
      nextId := nextId + 1;
    }

    method Remove(id: nat)
      modifies this
      ensures jobs == old(jobs) - {id} && nextId == old(nextId)
    {
      jobs := jobs - {id};
    }
  }

  /** The live registrations and the entries belong together one to one. */
  ghost predicate Paired(entries: map<string, Entry>, jobs: map<nat, Job>, nextId: nat)
  {
    && (forall s <- entries :: entries[s].id in jobs && jobs[entries[s].id] == Job(s, entries[s].expr))
    && (forall id <- jobs :: jobs[id].setId in entries && entries[jobs[id].setId].id == id)
    && (forall id <- jobs :: id < nextId)
  }

  /** The registrations without the one of this set's entry. */
  function Dropped(entries: map<string, Entry>, jobs: map<nat, Job>, setId: string): map<nat, Job>
  {
    if setId in entries then jobs - {entries[setId].id} else jobs
  }

  lemma ReplacedIsPaired(entries: map<string, Entry>, jobs: map<nat, Job>, nextId: nat, setId: string, expr: string)
    requires Paired(entries, jobs, nextId)
    ensures var kept := Dropped(entries, jobs, setId);
            Paired(entries[setId := Entry(nextId, expr)], kept[nextId := Job(setId, expr)], nextId + 1)
  {
  }

  lemma RemovedIsPaired(entries: map<string, Entry>, jobs: map<nat, Job>, nextId: nat, setId: string)
    requires Paired(entries, jobs, nextId)
    ensures Paired(entries - {setId}, Dropped(entries, jobs, setId), nextId)
  {
    assert setId !in entries ==> entries - {setId} == entries;
  }

  /** Were the cron service to refuse what the manager's parser takes, the refusal would come after the
      old registration is gone, and the entry would stay behind. */
  lemma RefusalLeavesAnOrphan(entries: map<string, Entry>, jobs: map<nat, Job>, nextId: nat, setId: string)
    requires Paired(entries, jobs, nextId)
    ensures Paired(entries, Dropped(entries, jobs, setId), nextId) <==> setId !in entries
  {
    if setId in entries {
      assert entries[setId].id !in Dropped(entries, jobs, setId);
    }
  }

  /** Nothing to do for this set, or an expression that is accepted. */
  predicate Attainable(setId: string, expr: string, current: map<string, Entry>, accepted: bool)
  {
    (setId in current && current[setId].expr == expr) || accepted
  }

  /** The sets no longer pending have the expression asked for, under their old number if they had it
      already; all the others are as they were. */
  ghost predicate Updated(
    entries: map<string, Entry>, current: map<string, Entry>, desired: map<string, string>, pending: set<string>)
  {
    && entries.Keys == current.Keys + (desired.Keys - pending)
    && forall s <- entries ::
         if s in desired && s !in pending then
           entries[s].expr == desired[s] && (s in current && current[s].expr == desired[s] ==> entries[s] == current[s])
         else
           s in current && entries[s] == current[s]
  }

  lemma UpdatedOne(
    entries: map<string, Entry>, current: map<string, Entry>, desired: map<string, string>, pending: set<string>,
    s: string, entry: Entry)
    requires Updated(entries, current, desired, pending) && s in pending && pending <= desired.Keys
    requires entry.expr == desired[s] && (s in current && current[s].expr == desired[s] ==> entry == current[s])
    ensures Updated(entries[s := entry], current, desired, pending - {s})
  {
  }

  /** The entry of a set is the one it had or has the expression asked for; a set nobody asks for keeps
      its entry. */
  predicate OldOrDesired(
    setId: string, entries: map<string, Entry>, old_: map<string, Entry>, desired: map<string, string>)
  {
    || (setId in entries && setId in old_ && entries[setId] == old_[setId])
    || (setId !in entries && setId !in old_)
    || (setId in entries && setId in desired && entries[setId].expr == desired[setId])
  }

  datatype SetInfo = SetInfo(id: string, schedule: string)

  /** The schedules asked for: of the sets that have one, the last word on each set. */
  function Desired(sets: seq<SetInfo>): map<string, string>
  {
    if sets == [] then
      map[]
    else
      var last := sets[|sets| - 1];
      var before := Desired(sets[..|sets| - 1]);
      if last.schedule == "" then before else before[last.id := last.schedule]
  }

  /** A set is wanted exactly when some listing gives it a schedule, and the last one that does counts. */
  lemma {:induction false} DesiredIsTheLastWord(sets: seq<SetInfo>, setId: string)
    ensures setId in Desired(sets) <==> exists i :: 0 <= i < |sets| && sets[i].id == setId && sets[i].schedule != ""
    ensures setId in Desired(sets) ==>
              exists i :: 0 <= i < |sets| && sets[i] == SetInfo(setId, Desired(sets)[setId]) && sets[i].schedule != ""
                          && forall j :: i < j < |sets| && sets[j].id == setId ==> sets[j].schedule == ""
  {
    if sets != [] {
      var n := |sets| - 1;
      DesiredIsTheLastWord(sets[..n], setId);
      assert sets == sets[..n] + [sets[n]];
      if sets[n].id == setId && sets[n].schedule != "" {
        assert sets[n] == SetInfo(setId, Desired(sets)[setId]);
      } else if setId in Desired(sets[..n]) {
        var i :| 0 <= i < n && sets[..n][i] == SetInfo(setId, Desired(sets[..n])[setId]) && sets[..n][i].schedule != ""
                 && forall j :: i < j < n && sets[..n][j].id == setId ==> sets[..n][j].schedule == "";
        assert sets[i] == sets[..n][i];
        assert forall j :: i < j < n ==> sets[j] == sets[..n][j];
      }
    }
  }

  class Manager {
    const cron: Cron
    const parses: string -> bool
    var entries: map<string, Entry>

    /** Live registrations and entries are in bijection. */
    ghost predicate Linked()
      reads this, cron
    {
      Paired(entries, cron.jobs, cron.nextId)
    }

    /** The cron service accepts whatever the manager's parser does. */
    ghost predicate ParsersAgree()
    {
      forall expr :: parses(expr) ==> cron.accepts(expr)
    }

    /** What holds from New on, after every call. */
    ghost predicate Consistent()
      reads this, cron
    {
      ParsersAgree() && Linked()
    }

    /** The manager's parser and the cron service read the same fields: one grammar for both. */
    constructor (grammar: string -> bool)
      ensures parses == grammar && cron.accepts == grammar
      ensures fresh(cron) && entries == map[] && Consistent()
    {
      cron := new Cron(grammar);
      parses := grammar;
      entries := map[];
    }

    method AddOrReplace(setId: string, expr: string) returns (ok: bool)
      modifies this, cron
      ensures ok <==> parses(expr) && cron.accepts(expr)
      ensures ok ==> entries == old(entries)[setId := Entry(old(cron.nextId), expr)]
      ensures !ok ==> entries == old(entries)
      ensures cron.nextId == old(cron.nextId) + if ok then 1 else 0
      ensures var kept := Dropped(old(entries), old(cron.jobs), setId);
              cron.jobs == if !parses(expr) then old(cron.jobs)
                           else if ok then kept[old(cron.nextId) := Job(setId, expr)]
                           else kept
      ensures old(Consistent()) ==> Consistent() && (ok <==> parses(expr))
      ensures old(Linked()) ==>
                (Linked() <==> !(setId in old(entries) && parses(expr) && !cron.accepts(expr)))
    {
      if old(Linked()) {
        ReplacedIsPaired(entries, cron.jobs, cron.nextId, setId, expr);
        RefusalLeavesAnOrphan(entries, cron.jobs, cron.nextId, setId);
      }
      if !parses(expr) {
        return false;
      }
      if setId in entries {
        cron.Remove(entries[setId].id);
      }
      var id := cron.AddFunc(expr, setId);
      if id.None? {
        return false;
      }
      entries := entries[setId := Entry(id.value, expr)];
      return true;
    }

    method Remove(setId: string)
      modifies this, cron
      ensures entries == old(entries) - {setId} && cron.nextId == old(cron.nextId)
      ensures cron.jobs == Dropped(old(entries), old(cron.jobs), setId)
      ensures old(Linked()) ==> Linked()
    {
      if old(Linked()) {
        RemovedIsPaired(entries, cron.jobs, cron.nextId, setId);
      }
      if setId in entries {
        cron.Remove(entries[setId].id);
        entries := entries - {setId};
      }
    }

    predicate Accepted(expr: string) { parses(expr) && cron.accepts(expr) }

    /** Succeeds exactly when every schedule that is new or changed is accepted, and then the entries are
        the schedules asked for, unchanged ones under their old number. Otherwise each set has its old or
        its new schedule. */
    method Reload(listed: Option<seq<SetInfo>>) returns (ok: bool)
      modifies this, cron
      ensures listed.None? ==> !ok && entries == old(entries)
      ensures listed.Some? ==>
                var desired := Desired(listed.value);
                ok <==> forall s <- desired :: Attainable(s, desired[s], old(entries), Accepted(desired[s]))
      ensures ok ==> entries.Keys == Desired(listed.value).Keys
                     && forall s <- entries :: entries[s].expr == Desired(listed.value)[s]
      ensures ok ==> forall s <- entries :: s in old(entries) && old(entries)[s].expr == entries[s].expr ==>
                entries[s] == old(entries)[s]
      ensures !ok && listed.Some? ==> forall s :: OldOrDesired(s, entries, old(entries), Desired(listed.value))
      ensures old(Consistent()) ==> Consistent()
    {
      if listed.None? {
        return false;
      }
      var desired: map<string, string> := map[];
      for i := 0 to |listed.value|
        invariant desired == Desired(listed.value[..i])
      {
        var s := listed.value[i];
        assert listed.value[..i + 1][..i] == listed.value[..i];
        if s.schedule != "" {
          desired := desired[s.id := s.schedule];
        }
      }
      assert listed.value[..|listed.value|] == listed.value;
      var current := entries;
      ok := AddMissing(desired, current);
      if ok {
        RemoveGone(desired, current);
      }
    }

    /** The first loop, over the desired schedules in any order. */
    method AddMissing(desired: map<string, string>, current: map<string, Entry>) returns (ok: bool)
      requires current == entries
      modifies this, cron
      ensures ok <==> forall s <- desired :: Attainable(s, desired[s], current, Accepted(desired[s]))
      ensures ok ==> Updated(entries, current, desired, {})
      ensures exists pending: set<string> :: Updated(entries, current, desired, pending)
      ensures old(Consistent()) ==> Consistent()
    {
      var pending := desired.Keys;
      while pending != {}
        invariant pending <= desired.Keys && Updated(entries, current, desired, pending)
        invariant forall s <- desired.Keys - pending :: Attainable(s, desired[s], current, Accepted(desired[s]))
        invariant old(Consistent()) ==> Consistent()
        decreases |pending|
      {
        var s :| s in pending;
        if s in current && current[s].expr == desired[s] {
          assert entries[s := current[s]] == entries;
          UpdatedOne(entries, current, desired, pending, s, current[s]);
        } else {
          UpdatedOne(entries, current, desired, pending, s, Entry(cron.nextId, desired[s]));
          var added := AddOrReplace(s, desired[s]);
          if !added {
            return false;
          }
        }
        pending := pending - {s};
      }
      return true;
    }

    /** The second loop, over the sets that had an entry before. */
    method RemoveGone(desired: map<string, string>, current: map<string, Entry>)
      modifies this, cron
      ensures entries == old(entries) - (current.Keys - desired.Keys)
      ensures old(Linked()) ==> Linked()
    {
      var pending := current.Keys;
      while pending != {}
        invariant pending <= current.Keys
        invariant entries == old(entries) - (current.Keys - pending - desired.Keys)
        invariant old(Linked()) ==> Linked()
        decreases |pending|
      {
        var s :| s in pending;
        if s !in desired {
          Remove(s);
        }
        pending := pending - {s};
      }
    }
  }
}
