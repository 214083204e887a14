/** Scheduled tasks and the cron entries that run them. */
module Scheduler {
  import opened Models

  datatype Task = Task(id: nat, enabled: bool, cronExpr: string, action: string, param: string)

  /** The last enabled task with this id, if its expression is one cron accepts. */
  function Wanted(valid: string -> bool, tasks: seq<Task>, id: nat): Option<Task> {
    if tasks == [] then None
    else
      var n := |tasks| - 1;
      if tasks[n].id == id && tasks[n].enabled then (if valid(tasks[n].cronExpr) then Some(tasks[n]) else None)
      else Wanted(valid, tasks[..n], id)
  }

  /** Each task id stands for one live cron entry that runs that task, and there is no other live entry. */
  predicate Paired(entries: map<nat, nat>, cron: map<nat, Task>) {
    && (forall id <- entries :: entries[id] in cron && cron[entries[id]].id == id)
    && (forall e <- cron :: cron[e].id in entries && entries[cron[e].id] == e)
  }

  /** Paired maps have as many entries as tasks. */
  lemma {:induction false} NoneLeaks(entries: map<nat, nat>, cron: map<nat, Task>)
    requires Paired(entries, cron)
    ensures |cron| == |entries|
    decreases |entries|
  {
    if entries.Keys == {} {
      assert cron.Keys == {};
    } else {
      var id :| id in entries.Keys;
      var e := entries[id];
      NoneLeaks(entries - {id}, cron - {e});
    }
  }

  class Scheduler {
    const valid: string -> bool
    var cron: map<nat, Task>
    var lastEntry: nat
    var entries: map<nat, nat>

    predicate Valid()
      reads this
    {
      Paired(entries, cron) && forall e <- cron :: e <= lastEntry
    }

    constructor (valid: string -> bool)
      ensures Valid() && entries == map[] && this.valid == valid
    {
      this.valid := valid;
      cron, lastEntry, entries := map[], 0, map[];
    }

    /** What will run for an id: the copy of its row made when the entry was added. */
    function Running(id: nat): Option<Task>
      reads this
      requires Valid()
    {
      if id in entries then Some(cron[entries[id]]) else None
    }

    method Drop(id: nat)
      requires Valid() && id in entries
      modifies this`cron, this`entries
      ensures Valid()
      ensures entries == old(entries) - {id} && cron == old(cron) - {old(entries)[id]}
    {
      cron := cron - {entries[id]};
      entries := entries - {id};
    }

    /** A new entry with an id never used before, unless the expression is not valid. */
    method AddFunc(t: Task) returns (entry: Option<nat>)
      modifies this`cron, this`lastEntry
      ensures entry.Some? <==> valid(t.cronExpr)
      ensures entry.None? ==> cron == old(cron) && lastEntry == old(lastEntry)
      ensures entry.Some? ==> entry.value == lastEntry == old(lastEntry) + 1 && cron == old(cron)[lastEntry := t]
    {
      if !valid(t.cronExpr) {
        return None;
      }
      lastEntry := lastEntry + 1;
      cron := cron[lastEntry := t];
      entry := Some(lastEntry);
    }

    method DropGone(tasks: seq<Task>)
      requires Valid()
      modifies this`cron, this`entries
      ensures Valid()
      ensures forall id ::
                Running(id) == if exists t <- tasks :: t.enabled && t.id == id then old(Running(id)) else None
    {
      var live := set t | t in tasks && t.enabled :: t.id;
      var ids := entries.Keys;
      while ids != {}
        invariant Valid() && ids <= entries.Keys
        invariant forall id :: Running(id) == if id in live || id in ids then old(Running(id)) else None
        decreases |ids|
      {
        var id :| id in ids;
        ids := ids - {id};
        if id !in live {
          Drop(id);
        }
      }
    }

    /** One task of the list, put in place of whatever ran under its id. */
    method Replace(t: Task)
      requires Valid() && t.enabled
      modifies this
      ensures Valid()
      ensures forall id ::
                Running(id) ==
                if id != t.id then old(Running(id)) else if valid(t.cronExpr) then Some(t) else None
    {
      if t.id in entries {
        Drop(t.id);
      }
      var entry := AddFunc(t);
      if entry.Some? {
        entries := entries[t.id := entry.value];
      }
    }

    /** After it, each id runs what is now wanted for it, or nothing, and cron holds no other entry. */
    method Reload(tasks: Option<seq<Task>>)
      requires Valid()
      modifies this
      ensures Valid()
      ensures tasks.None? ==> cron == old(cron) && entries == old(entries)
      ensures tasks.Some? ==> forall id :: Running(id) == Wanted(valid, tasks.value, id)
    {
      if tasks.None? {
        return;
      }
      var ts := tasks.value;
      DropGone(ts);
      for k := 0 to |ts|
        invariant Valid()
        invariant forall id | exists j | 0 <= j < k :: ts[j].enabled && ts[j].id == id ::
                  Running(id) == Wanted(valid, ts[..k], id)
        invariant forall id | Running(id).Some? :: exists t <- ts :: t.enabled && t.id == id
      {
        var t := ts[k];
        assert ts[..k + 1][..k] == ts[..k];
        if t.enabled {
          Replace(t);
        }
      }
      assert ts[..|ts|] == ts;
      forall id ensures Running(id) == Wanted(valid, ts, id) {
        Unwanted(ts, id);
      }
    }

    lemma {:induction false} Unwanted(tasks: seq<Task>, id: nat)
      ensures (forall j | 0 <= j < |tasks| :: !(tasks[j].enabled && tasks[j].id == id)) ==>
              Wanted(valid, tasks, id).None?
      decreases |tasks|
    {
      if tasks != [] {
        Unwanted(tasks[..|tasks| - 1], id);
      }
    }
  }

  /** With ids that are keys, exactly the enabled tasks with a valid expression are wanted, as they stand now. */
  lemma {:induction false} WantedIff(valid: string -> bool, tasks: seq<Task>, t: Task)
    requires forall i, j | 0 <= i < j < |tasks| :: tasks[i].id != tasks[j].id
    ensures Wanted(valid, tasks, t.id) == Some(t) <==> t in tasks && t.enabled && valid(t.cronExpr)
    decreases |tasks|
  {
    if tasks != [] {
      var n := |tasks| - 1;
      WantedIff(valid, tasks[..n], t);
      assert tasks == tasks[..n] + [tasks[n]];
    }
  }
}
