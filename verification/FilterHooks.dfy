/** The table of filter hooks of src/osc-feedback.cpp, together with what libobs counts for it: the
    references the table holds and the live "enable" connections. Sources and filters are identified by
    numbers; `obs_source_get_ref` may fail. */
module FilterHooks {

  datatype Hook = Hook(parent: nat, filter: nat)

  /** The null pointer. */
  const NULL: nat := 0

  // ---- the table on values ---------------------------------------------------

  predicate Distinct(hooks: seq<Hook>) {
    forall i, j :: 0 <= i < j < |hooks| ==> hooks[i] != hooks[j]
  }

  function Hooked(hooks: seq<Hook>, h: Hook, refOk: bool): seq<Hook> {
    if h.filter == NULL || h in hooks || !refOk then hooks else hooks + [h]
  }

  /** The entries from the `k`-th on without the first one equal to `h`. */
  function Unhooked(hooks: seq<Hook>, h: Hook, k: nat := 0): seq<Hook>
    requires k <= |hooks|
    decreases |hooks| - k
  {
    if k == |hooks| then hooks
    else if hooks[k] == h then hooks[..k] + hooks[k + 1..]
    else Unhooked(hooks, h, k + 1)
  }

  /** The first `n` entries without those of one parent, in their order. */
  function KeptBefore(hooks: seq<Hook>, parent: nat, n: nat): seq<Hook>
    requires n <= |hooks|
  {
    if n == 0 then []
    else if hooks[n - 1].parent == parent then KeptBefore(hooks, parent, n - 1)
    else KeptBefore(hooks, parent, n - 1) + [hooks[n - 1]]
  }

  function WithoutParent(hooks: seq<Hook>, parent: nat): seq<Hook> {
    KeptBefore(hooks, parent, |hooks|)
  }

  /** The filter of every entry, as often as it has entries. */
  function FiltersOf(hooks: seq<Hook>): multiset<nat> {
    if hooks == [] then multiset{} else FiltersOf(hooks[..|hooks| - 1]) + multiset{hooks[|hooks| - 1].filter}
  }

  lemma FiltersOfOneMore(hooks: seq<Hook>, h: Hook)
    ensures FiltersOf(hooks + [h]) == FiltersOf(hooks) + multiset{h.filter}
  {
    assert (hooks + [h])[..|hooks|] == hooks;
  }

  lemma {:induction false} FiltersWithoutOne(hooks: seq<Hook>, i: nat)
    requires i < |hooks|
    ensures FiltersOf(hooks) == FiltersOf(hooks[..i] + hooks[i + 1..]) + multiset{hooks[i].filter}
    decreases |hooks|
  {
    var front, last := hooks[..|hooks| - 1], hooks[|hooks| - 1];
    if i == |hooks| - 1 {
      WithoutLast(hooks);
    } else {
      FiltersWithoutOne(front, i);
      WithoutInner(hooks, i);
      FiltersOfOneMore(front[..i] + front[i + 1..], last);
    }
  }

  lemma WithoutLast(hooks: seq<Hook>)
    requires hooks != []
    ensures hooks[..|hooks| - 1] + hooks[|hooks|..] == hooks[..|hooks| - 1]
  {
  }

  lemma WithoutInner(hooks: seq<Hook>, i: nat)
    requires i < |hooks| - 1
    ensures var front := hooks[..|hooks| - 1];
            hooks[..i] + hooks[i + 1..] == front[..i] + front[i + 1..] + [hooks[|hooks| - 1]]
  {
  }

  /** The three accounts of the table when one entry is dropped. */
  lemma DropAccounts(hooks: seq<Hook>, i: nat)
    requires i < |hooks| && Distinct(hooks)
    ensures var rest := hooks[..i] + hooks[i + 1..];
            && Distinct(rest) && multiset(rest) == multiset(hooks) - multiset{hooks[i]}
            && FiltersOf(rest) == FiltersOf(hooks) - multiset{hooks[i].filter}
  {
    HooksWithoutOne(hooks, i);
    DistinctWithoutOne(hooks, i);
    FiltersWithoutOne(hooks, i);
  }

  lemma HooksWithoutOne(hooks: seq<Hook>, i: nat)
    requires i < |hooks|
    ensures multiset(hooks[..i] + hooks[i + 1..]) == multiset(hooks) - multiset{hooks[i]}
  {
    assert hooks == hooks[..i] + [hooks[i]] + hooks[i + 1..];
  }

  lemma DistinctWithoutOne(hooks: seq<Hook>, i: nat)
    requires i < |hooks| && Distinct(hooks)
    ensures Distinct(hooks[..i] + hooks[i + 1..])
  {
    var rest := hooks[..i] + hooks[i + 1..];
    assert forall k :: 0 <= k < |rest| ==> rest[k] == hooks[if k < i then k else k + 1];
  }

  lemma DistinctWithOneMore(hooks: seq<Hook>, h: Hook)
    requires Distinct(hooks) && h !in hooks
    ensures Distinct(hooks + [h])
  {
  }

  // ---- the class -------------------------------------------------------------

  class HookTable {
    var hooks: seq<Hook>
    var references: multiset<nat>     // held by the table, per filter
    var connections: multiset<Hook>   // live "enable" connections

    /** Entries are pairwise distinct; references and connections are what the entries say. */
    ghost predicate Valid()
      reads this
    {
      Distinct(hooks) && references == FiltersOf(hooks) && connections == multiset(hooks)
    }

    constructor ()
      ensures Valid() && hooks == []
    {
      hooks, references, connections := [], multiset{}, multiset{};
    }

    /** `hook_filter`; `refOk` says whether `obs_source_get_ref` succeeds. */
    method HookFilter(parent: nat, filter: nat, refOk: bool)
      requires Valid()
      modifies this
      ensures Valid() && hooks == Hooked(old(hooks), Hook(parent, filter), refOk)
    {
      if filter == NULL {
        return;
      }
      for i := 0 to |hooks|
        invariant Valid() && hooks == old(hooks) && Hook(parent, filter) !in hooks[..i]
      {
        if hooks[i] == Hook(parent, filter) {
          return;
        }
      }
      assert hooks[..|hooks|] == hooks;
      if !refOk {
        return;
      }
      DistinctWithOneMore(hooks, Hook(parent, filter));
      FiltersOfOneMore(hooks, Hook(parent, filter));
      references := references + multiset{filter};
      connections := connections + multiset{Hook(parent, filter)};
      hooks := hooks + [Hook(parent, filter)];
    }

    /** `drop_hook_at`: disconnect, release, erase. */
    method DropHookAt(index: nat)
      requires Valid() && index < |hooks|
      modifies this
      ensures Valid() && hooks == old(hooks)[..index] + old(hooks)[index + 1..]
    {
      DropAccounts(hooks, index);
      var h := hooks[index];
      hooks := hooks[..index] + hooks[index + 1..];
      connections := connections - multiset{h};
      references := references - multiset{h.filter};
    }

    /** `unhook_filter`. */
    method UnhookFilter(parent: nat, filter: nat)
      requires Valid()
      modifies this
      ensures Valid() && hooks == Unhooked(old(hooks), Hook(parent, filter))
    {
      for i := 0 to |hooks|
        invariant Valid() && hooks == old(hooks)
        invariant Unhooked(hooks, Hook(parent, filter)) == Unhooked(hooks, Hook(parent, filter), i)
      {
        if hooks[i] == Hook(parent, filter) {
          DropHookAt(i);
          return;
        }
      }
    }

    /** `unhook_filters_of_parent`: erasing from the back removes this parent's entries and leaves the
        rest in order. */
    method UnhookFiltersOfParent(parent: nat)
      requires Valid()
      modifies this
      ensures Valid() && hooks == WithoutParent(old(hooks), parent)
    {
      ghost var was := hooks;
      ghost var kept: seq<Hook> := [];
      var i := |hooks|;
      while i > 0
        invariant 0 <= i <= |was| && Valid()
        invariant hooks == was[..i] + kept
        invariant KeptBefore(was, parent, i) + kept == WithoutParent(was, parent)
      {
        i := i - 1;
        DropOrKeep(was, parent, i, kept);
        if hooks[i].parent == parent {
          DropHookAt(i);
        } else {
          kept := [was[i]] + kept;
        }
      }
    }
  }

  lemma DropOrKeep(was: seq<Hook>, parent: nat, i: nat, kept: seq<Hook>)
    requires i < |was|
    ensures var hooks := was[..i + 1] + kept;
            && hooks[i] == was[i] && hooks[..i] + hooks[i + 1..] == was[..i] + kept
            && hooks == was[..i] + ([was[i]] + kept)
    ensures KeptBefore(was, parent, i + 1) + kept ==
            if was[i].parent == parent then KeptBefore(was, parent, i) + kept
            else KeptBefore(was, parent, i) + ([was[i]] + kept)
  {
  }

  // ---- runs ------------------------------------------------------------------

  datatype Op = HookOp(h: Hook, refOk: bool) | UnhookOp(h: Hook) | DropParent(parent: nat)

  function Applied(hooks: seq<Hook>, op: Op): seq<Hook> {
    match op
    case HookOp(h, refOk) => Hooked(hooks, h, refOk)
    case UnhookOp(h) => Unhooked(hooks, h)
    case DropParent(parent) => WithoutParent(hooks, parent)
  }

  function After(ops: seq<Op>, n: nat): seq<Hook>
    requires n <= |ops|
  {
    if n == 0 then [] else Applied(After(ops, n - 1), ops[n - 1])
  }

  /** Whether an entry ought to be there: its last hook succeeded and nothing has taken it out since. */
  predicate Live(ops: seq<Op>, n: nat, h: Hook)
    requires n <= |ops|
  {
    n > 0 && match ops[n - 1]
      case HookOp(g, refOk) => (g == h && refOk && h.filter != NULL) || Live(ops, n - 1, h)
      case UnhookOp(g) => g != h && Live(ops, n - 1, h)
      case DropParent(parent) => parent != h.parent && Live(ops, n - 1, h)
  }

  lemma {:induction false} UnhookedRemovesOne(hooks: seq<Hook>, h: Hook, k: nat)
    requires k <= |hooks| && Distinct(hooks) && forall i :: 0 <= i < k ==> hooks[i] != h
    ensures Distinct(Unhooked(hooks, h, k))
    ensures forall g :: g in Unhooked(hooks, h, k) <==> g in hooks && g != h
    decreases |hooks| - k
  {
    if k < |hooks| {
      if hooks[k] == h {
        RemovedAt(hooks, k);
      } else {
        UnhookedRemovesOne(hooks, h, k + 1);
      }
    }
  }

  lemma RemovedAt(hooks: seq<Hook>, k: nat)
    requires k < |hooks| && Distinct(hooks)
    ensures var rest := hooks[..k] + hooks[k + 1..];
            Distinct(rest) && forall g :: g in rest <==> g in hooks && g != hooks[k]
  {
    var rest := hooks[..k] + hooks[k + 1..];
    DistinctWithoutOne(hooks, k);
    forall g | g in hooks && g != hooks[k] ensures g in rest {
      var i :| 0 <= i < |hooks| && hooks[i] == g;
      assert rest[if i < k then i else i - 1] == g;
    }
  }

  lemma {:induction false} KeptAre(hooks: seq<Hook>, parent: nat, n: nat)
    requires n <= |hooks|
    ensures forall h :: h in KeptBefore(hooks, parent, n) <==> h in hooks[..n] && h.parent != parent
    decreases n
  {
    if n > 0 {
      KeptAre(hooks, parent, n - 1);
      assert hooks[..n] == hooks[..n - 1] + [hooks[n - 1]];
    }
  }

  lemma {:induction false} KeptDistinct(hooks: seq<Hook>, parent: nat, n: nat)
    requires n <= |hooks| && Distinct(hooks)
    ensures Distinct(KeptBefore(hooks, parent, n))
    decreases n
  {
    if n > 0 {
      KeptDistinct(hooks, parent, n - 1);
      KeptAre(hooks, parent, n - 1);
      DistinctWithOneMore(KeptBefore(hooks, parent, n - 1), hooks[n - 1]);
    }
  }

  /** On every run, references failing or not: the entries are pairwise distinct and are exactly the
      hooks that ought to be live. */
  lemma {:induction false} EntriesAreTheLiveHooks(ops: seq<Op>, n: nat)
    requires n <= |ops|
    ensures Distinct(After(ops, n))
    ensures forall h :: h in After(ops, n) <==> Live(ops, n, h)
    decreases n
  {
    if n > 0 {
      var before := After(ops, n - 1);
      EntriesAreTheLiveHooks(ops, n - 1);
      match ops[n - 1]
      case HookOp(h, refOk) =>
      case UnhookOp(h) =>
        UnhookedRemovesOne(before, h, 0);
      case DropParent(parent) =>
        KeptDistinct(before, parent, |before|);
        KeptAre(before, parent, |before|);
        assert before[..|before|] == before;
    }
  }

  /** Among the entries a drop leaves, order is as before. */
  lemma {:induction false} DropKeepsOrder(hooks: seq<Hook>, parent: nat, n: nat, a: nat, b: nat)
    returns (i: nat, j: nat)
    requires n <= |hooks| && a < b < |KeptBefore(hooks, parent, n)|
    ensures i < j < n
    ensures hooks[i] == KeptBefore(hooks, parent, n)[a] && hooks[j] == KeptBefore(hooks, parent, n)[b]
    decreases n
  {
    var kept := KeptBefore(hooks, parent, n);
    if hooks[n - 1].parent == parent || b < |kept| - 1 {
      i, j := DropKeepsOrder(hooks, parent, n - 1, a, b);
    } else {
      j := n - 1;
      i := KeptFrom(hooks, parent, j, kept[a]);
    }
  }

  lemma KeptFrom(hooks: seq<Hook>, parent: nat, n: nat, h: Hook) returns (i: nat)
    requires n <= |hooks| && h in KeptBefore(hooks, parent, n)
    ensures i < n && hooks[i] == h
  {
    KeptAre(hooks, parent, n);
    i :| 0 <= i < n && hooks[..n][i] == h;
  }
}
