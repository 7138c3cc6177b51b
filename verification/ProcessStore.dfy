/**
 The pid table of tools/daemon/store.c: the hash table of tools/daemon/hash.c with the store_pid objects its values point
 to.  It is proved to be a finite map from pids to flow lists, of at most the table's size.
 */
module ProcessStore {
  import opened Options
  import HashTable
  import opened FlowAccounting
  import opened DaemonProtocol

  /** The map that a table of addresses and the lists at those addresses stand for. */
  ghost predicate StandsFor(m: map<nat, HashTable.Ptr>, lists: map<HashTable.Ptr, seq<Live>>, procs: map<Pid, seq<Live>>)
  {
    && procs.Keys == m.Keys
    && forall pid | pid in m :: m[pid] in lists && lists[m[pid]] == procs[pid]
  }

  /** Table, lists and allocator fit together: no address was handed out that is not below next. */
  ghost predicate Coupled(g: HashTable.Model, lists: map<HashTable.Ptr, seq<Live>>, procs: map<Pid, seq<Live>>, next: HashTable.Ptr)
  {
    StandsFor(g.m, lists, procs) && forall p | p in g.Accepted() :: p < next
  }

  lemma SameSize(g: HashTable.Model, lists: map<HashTable.Ptr, seq<Live>>, procs: map<Pid, seq<Live>>, next: HashTable.Ptr)
    requires Coupled(g, lists, procs, next)
    ensures |procs| == |g.m|
  {
    assert |procs| == |procs.Keys| && |g.m| == |g.m.Keys|;
  }

  lemma ChangeList(g: HashTable.Model, lists: map<HashTable.Ptr, seq<Live>>, procs: map<Pid, seq<Live>>, next: HashTable.Ptr,
                   pid: Pid, flows: seq<Live>)
    requires g.Valid() && Coupled(g, lists, procs, next) && pid in procs
    ensures Coupled(g, lists[g.m[pid] := flows], procs[pid := flows], next)
  {
    forall other | other in g.m && other != pid
      ensures g.m[other] != g.m[pid]
    {
      assert g.owner[g.m[other]] == other && g.owner[g.m[pid]] == pid;
    }
  }

  /** A list at a fresh address, entered or not. */
  lemma NewList(g: HashTable.Model, lists: map<HashTable.Ptr, seq<Live>>, procs: map<Pid, seq<Live>>, next: HashTable.Ptr, pid: Pid)
    requires g.Valid() && Coupled(g, lists, procs, next)
    ensures next !in g.Accepted() && Coupled(g, lists[next := []], procs, next + 1)
    ensures forall g': HashTable.Model | g'.m == g.m[pid := next] && g'.Accepted() == g.Accepted() + {next} ::
              Coupled(g', lists[next := []], procs[pid := []], next + 1)
  {
    forall other | other in g.m
      ensures g.m[other] != next
    {
      assert g.owner[g.m[other]] == other && g.m[other] in g.Accepted();
    }
  }

  lemma DropList(g: HashTable.Model, lists: map<HashTable.Ptr, seq<Live>>, procs: map<Pid, seq<Live>>, next: HashTable.Ptr, pid: Pid)
    requires Coupled(g, lists, procs, next)
    ensures forall g': HashTable.Model | g'.m == g.m - {pid} && g'.Accepted() == g.Accepted() ::
              Coupled(g', lists, procs - {pid}, next)
  {
  }

  class ProcessStore {
    const table: HashTable.Table                   // daemon_cfg.ht
    var lists: map<HashTable.Ptr, seq<Live>>       // flow_list of the store_pid at each address
    var next: HashTable.Ptr                        // where the next store_pid is allocated
    ghost var procs: map<Pid, seq<Live>>

    ghost predicate Valid()
      reads this, table, table.slots
    {
      table.Valid() && Coupled(table.g, lists, procs, next)
    }

    /** The store_pid of the process is at p. */
    ghost predicate Holds(pid: Pid, p: HashTable.Ptr)
      reads this, table
    {
      && pid in table.Contents() && table.Contents()[pid] == p
      && pid in procs && p in lists && lists[p] == procs[pid]
    }

    /** `open_store` */
    constructor (max: nat)
      requires max >= 1
      ensures Valid() && procs == map[] && table.size == max && fresh(table) && fresh(table.slots)
    {
      table := new HashTable.Table(max);
      lists := map[];
      next := 0;
      procs := map[];
    }

    /** Where the store_pid of a process is, by `hash_get`. */
    method Find(pid: Pid) returns (p: Option<HashTable.Ptr>)
      requires Valid() && pid != HashTable.KEY_INVALID
      modifies table`last
      ensures Valid() && (p.Some? <==> pid in procs)
      ensures p.Some? ==> Holds(pid, p.value)
    {
      p := table.Get(pid);
    }

    /** A new store_pid without flows, entered by `hash_put`: refused exactly when the table is full. */
    method Register(pid: Pid) returns (ok: bool)
      requires Valid() && pid != HashTable.KEY_INVALID
      modifies this, table, table.slots
      ensures Valid() && (ok <==> |old(procs)| < table.size)
      ensures procs == if ok then old(procs)[pid := []] else old(procs)
    {
      SameSize(table.g, lists, procs, next);
      table.CountIsSize();
      NewList(table.g, lists, procs, next, pid);
      var p := next;
      ghost var fits := |procs| < table.size;
      next := next + 1;
      lists := lists[p := []];
      procs := if fits then procs[pid := []] else procs;
      ok := table.Put(pid, p);
    }

    /** The flow list at an address changes. */
    method Update(ghost pid: Pid, p: HashTable.Ptr, flows: seq<Live>)
      requires Valid() && Holds(pid, p)
      modifies this`lists, this`procs
      ensures Valid() && procs == old(procs)[pid := flows]
    {
      ChangeList(table.g, lists, procs, next, pid, flows);
      lists := lists[p := flows];
      procs := procs[pid := flows];
    }

    /** The process goes, by `hash_del`. */
    method Remove(pid: Pid)
      requires Valid() && pid != HashTable.KEY_INVALID
      modifies this`procs, table, table.slots
      ensures Valid() && procs == old(procs) - {pid}
    {
      DropList(table.g, lists, procs, next, pid);
      procs := procs - {pid};
      table.Delete(pid);
    }
  }
}
