/** The scope stack in its own form: a fixed table of scopes, a count of variables for each, and the
    loops over them, tied to the operations that the machine of module Machine performs. */
module ScopeStack {
  import opened Syntax
  import opened Machine

  /** The first `n` variables of the scope at index `d`, oldest first. */
  ghost function Row(table: array2<Var>, d: nat, n: nat): (s: Scope)
    requires d < table.Length0 && n <= table.Length1
    reads table
    ensures |s| == n && forall i :: 0 <= i < n ==> s[i] == table[d, i]
  {
    if n == 0 then [] else Row(table, d, n - 1) + [table[d, n - 1]]
  }

  ghost function Rows(table: array2<Var>, counts: array<nat>, n: nat): (s: seq<Scope>)
    requires n <= table.Length0 == counts.Length
    requires forall d :: 0 <= d < counts.Length ==> counts[d] <= table.Length1
    reads table, counts
    ensures |s| == n && forall d :: 0 <= d < n ==> s[d] == Row(table, d, counts[d])
  {
    if n == 0 then [] else Rows(table, counts, n - 1) + [Row(table, n - 1, counts[n - 1])]
  }

  function InScope(s: Scope, name: string): Option<Var> {
    var i := IndexIn(s, name);
    if i < |s| then Some(s[i]) else None
  }

  lemma ResolveStep(scopes: seq<Scope>, n: nat, name: string)
    requires n < |scopes|
    ensures Resolve(scopes[..n + 1], name) == if InScope(scopes[n], name).Some? then InScope(scopes[n], name)
                                              else Resolve(scopes[..n], name)
  {
    hide IndexIn;
    var open := scopes[..n + 1];
    assert open[|open| - 1] == scopes[n] && open[..|open| - 1] == scopes[..n];
  }

  lemma NothingOpen(name: string)
    ensures Resolve([], name) == None
  {
  }

  class Scopes {
    const table: array2<Var>
    const counts: array<nat>
    var depth: nat
    var errors: seq<Error>
    ghost var hits: seq<Hit>

    ghost predicate Valid()
      reads `depth, counts
    {
      && table.Length0 == MAX_SCOPES && table.Length1 == MAX_VARS && counts.Length == MAX_SCOPES
      && 1 <= depth <= MAX_SCOPES
      && forall d :: 0 <= d < MAX_SCOPES ==> counts[d] <= MAX_VARS
    }

    /** The open scopes, outermost first. */
    ghost function Contents(): (s: seq<Scope>)
      requires Valid()
      reads `depth, counts, table
      ensures |s| == depth
    {
      Rows(table, counts, depth)
    }

    ghost function View(): State
      requires Valid()
      reads this, counts, table
    {
      State([], Contents(), errors, hits)
    }

    constructor ()
      ensures Valid() && fresh(table) && fresh(counts) && View() == State([], [[]], [], [])
    {
      table := new Var[MAX_SCOPES, MAX_VARS]((_, _) => Var("", false, 0));
      counts := new nat[MAX_SCOPES](_ => 0);
      depth := 1;
      errors, hits := [], [];
      new;
      hide Rows;
      assert Contents()[0] == [];
    }

    method PushScope()
      requires Valid()
      modifies this, counts
      ensures Valid() && View() == Push(old(View()))
    {
      if depth >= MAX_SCOPES {
        errors := errors + [ScopeOverflow];
        return;
      }
      counts[depth] := 0;
      depth := depth + 1;
      assert Contents() == old(Contents()) + [[]];
    }

    /** The global scope is never popped. */
    method PopScope()
      requires Valid()
      modifies this, counts
      ensures Valid() && View() == Unwind(old(View()), old(depth) - 1)
      ensures old(depth) > 1 ==> depth == old(depth) - 1 && Contents() == old(Contents())[..depth]
    {
      if depth <= 1 {
        errors := errors + [BadPopTarget];
        return;
      }
      counts[depth - 1] := 0;
      depth := depth - 1;
      assert Contents() == old(Contents())[..depth];
    }

    method PopNext(ghost scopes: seq<Scope>)
      requires Valid() && 1 < depth <= |scopes| && Contents() == scopes[..depth]
      modifies this, counts
      ensures Valid() && depth == old(depth) - 1 && Contents() == scopes[..depth]
      ensures errors == old(errors) && hits == old(hits)
    {
      hide Rows, Row, Contents;
      PopScope();
      assert scopes[..depth + 1][..depth] == scopes[..depth];
    }

    method PopToScopeDepth(target: int)
      requires Valid()
      modifies this, counts
      ensures Valid() && View() == Unwind(old(View()), target)
    {
      if target < 1 || target > depth {
        errors := errors + [BadPopTarget];
        return;
      }
      hide Rows, Row, Contents;
      ghost var scopes := Contents();
      assert scopes[..depth] == scopes;
      while depth > target
        invariant Valid() && target <= depth <= |scopes|
        invariant errors == old(errors) && hits == old(hits)
        invariant Contents() == scopes[..depth]
      {
        PopNext(scopes);
      }
    }

    /** Index in the scope of the first variable of that name, or its count. */
    method FindIn(d: nat, name: string) returns (i: nat)
      requires Valid() && d < depth
      ensures i == IndexIn(Contents()[d], name)
    {
      i := 0;
      while i < counts[d]
        invariant i <= counts[d]
        invariant forall j :: 0 <= j < i ==> table[d, j].name != name
      {
        if table[d, i].name == name {
          break;
        }
        i := i + 1;
      }
      FirstIndex(Contents()[d], name, i);
    }

    method FindInScope(d: nat, name: string) returns (v: Option<Var>)
      requires Valid() && d < depth
      ensures v == InScope(Contents()[d], name)
    {
      hide Rows, Row, IndexIn;
      var i := FindIn(d, name);
      v := if i < counts[d] then Some(table[d, i]) else None;
    }

    /** From the innermost scope outwards. */
    method GetVariable(name: string) returns (v: Option<Var>)
      requires Valid()
      ensures v == Lookup(Contents(), name)
    {
      hide Contents, Resolve, InScope;
      v := None;
      if 0 < |name| < 255 {
        ghost var scopes := Contents();
        var s: nat := depth;
        assert scopes[..s] == scopes;
        while s > 0 && v.None?
          invariant s <= |scopes|
          invariant (if v.Some? then v else Resolve(scopes[..s], name)) == Resolve(scopes, name)
          decreases s, v.None?
        {
          v := FindInScope(s - 1, name);
          ResolveStep(scopes, s - 1, name);
          s := s - 1;
        }
        NothingOpen(name);
        assert s == 0 ==> scopes[..s] == [];
      }
    }

    /** Refused: a second variable of that name in the scope, a full scope, a name of 255 characters or more. */
    method DeclareVariable(name: string, isConst: bool, site: nat)
      requires Valid()
      modifies this, counts, table
      ensures Valid() && View() == Declare(old(View()), name, isConst, site)
    {
      hide Rows, Row, IndexIn;
      var n := depth - 1;
      var i := FindIn(n, name);
      if i < counts[n] {
        errors := errors + [Duplicate];
      } else if counts[n] >= MAX_VARS {
        errors := errors + [TooManyVars];
      } else if |name| >= 255 {
        errors := errors + [NameTooLong];
      } else {
        AddVariable(n, Var(name, isConst, site));
      }
    }

    method AddVariable(n: nat, v: Var)
      requires Valid() && n + 1 == depth && counts[n] < MAX_VARS
      modifies counts, table
      ensures Valid() && Contents() == old(Contents())[n := old(Contents())[n] + [v]]
    {
      ghost var was := Contents();
      table[n, counts[n]] := v;
      counts[n] := counts[n] + 1;
      ghost var now := Contents();
      forall d | 0 <= d < depth ensures now[d] == was[n := was[n] + [v]][d] { }
    }

    method DeclareIfMissing(name: string, site: nat)
      requires Valid()
      modifies this, counts, table
      ensures Valid()
      ensures View() == if Lookup(old(Contents()), name).Some? then old(View())
              else Declare(old(View()), name, false, site)
    {
      var v := GetVariable(name);
      if v.None? {
        DeclareVariable(name, false, site);
      }
    }

    /** A load, or an assignment, which a constant refuses. */
    method Access(pc: nat, name: string, store: bool)
      requires Valid()
      modifies this
      ensures Valid() && View() == Touch(old(View()), pc, name, store)
    {
      var v := GetVariable(name);
      if v.None? {
        errors := errors + [UnknownName];
      } else if store && v.value.isConst {
        errors := errors + [ConstAssign];
      } else {
        hits := hits + [Hit(pc, name, v.value.site)];
      }
    }
  }

  lemma {:induction false} FirstIndex(s: Scope, name: string, i: nat)
    requires i <= |s| && (i < |s| ==> s[i].name == name)
    requires forall j :: 0 <= j < i ==> s[j].name != name
    ensures IndexIn(s, name) == i
  {
    if IndexIn(s, name) < i { assert false; }
  }
}
