/** The migration runner: every .sql file once, in sorted order, however often it is run and
    wherever it crashes. */
module Migration {

  type Name = string

  /** How one call to `Up` ends: after how many newly applied files it fails, if it does. */
  datatype Budget = Unlimited | FailsAfter(applied: nat)

  class Database {
    var stamped: set<Name>       // schema_migrations
    var executed: seq<Name>      // file bodies whose transaction committed, in commit order

    constructor ()
      ensures stamped == {} && executed == []
    {
      stamped, executed := {}, [];
    }

    /** Stamp and body are committed together; a failure rolls both back and stops the loop. */
    method Up(names: seq<Name>, budget: Budget) returns (ok: bool)
      modifies this
      ensures (ok, stamped, executed) == Applied(names, old(stamped), old(executed), budget)
    {
      var i, applied := 0, 0;
      ok := true;
      while i < |names|
        invariant 0 <= i <= |names|
        invariant budget.FailsAfter? ==> applied <= budget.applied
        invariant Applied(names, old(stamped), old(executed), budget)
                  == Applied(names[i..], stamped, executed,
                             if budget.Unlimited? then Unlimited else FailsAfter(budget.applied - applied))
      {
        var name := names[i];
        if name !in stamped {
          if budget.FailsAfter? && applied == budget.applied {
            return false;
          }
          applied := applied + 1;
          stamped, executed := stamped + {name}, executed + [name];
        }
        i := i + 1;
      }
    }
  }

  function Applied(names: seq<Name>, stamped: set<Name>, executed: seq<Name>, budget: Budget)
    : (bool, set<Name>, seq<Name>)
    decreases |names|
  {
    if names == [] then (true, stamped, executed)
    else if names[0] in stamped then Applied(names[1..], stamped, executed, budget)
    else if budget == FailsAfter(0) then (false, stamped, executed)
    else Applied(names[1..], stamped + {names[0]}, executed + [names[0]],
                 if budget.Unlimited? then Unlimited else FailsAfter(budget.applied - 1))
  }

  /** The state after a sequence of runs, crashed or not. */
  function Runs(names: seq<Name>, budgets: seq<Budget>): (set<Name>, seq<Name>) {
    if budgets == [] then ({}, [])
    else
      var (stamped, executed) := Runs(names, budgets[..|budgets| - 1]);
      var r := Applied(names, stamped, executed, budgets[|budgets| - 1]);
      (r.1, r.2)
  }

  ghost predicate Distinct(names: seq<Name>) {
    forall i, j :: 0 <= i < j < |names| ==> names[i] != names[j]
  }

  ghost predicate Prefix(names: seq<Name>, k: nat, stamped: set<Name>, executed: seq<Name>) {
    k <= |names| && executed == names[..k] && stamped == set n | n in names[..k]
  }

  /** From a prefix, a run applies the next files one by one: all of them, or as many as it
      manages before it fails. `done` is the part of the loop already behind. */
  lemma {:induction false} RunExtends(names: seq<Name>, done: nat, k: nat, stamped: set<Name>, executed: seq<Name>,
      budget: Budget)
    requires Distinct(names) && done <= |names| && Prefix(names, k, stamped, executed) && done <= k
    ensures var r := Applied(names[done..], stamped, executed, budget);
            var k' := if budget.Unlimited? || k + budget.applied > |names| then |names| else k + budget.applied;
            Prefix(names, k', r.1, r.2) && (r.0 <==> k' == |names|)
    decreases |names| - done
  {
    if done < |names| {
      var rest := names[done..];
      assert rest[1..] == names[done + 1..] && rest[0] == names[done];
      if done < k {
        assert names[done] in names[..k];
        RunExtends(names, done + 1, k, stamped, executed, budget);
      } else {
        assert names[k] !in names[..k];
        if budget != FailsAfter(0) {
          assert names[..k + 1] == names[..k] + [names[k]];
          RunExtends(names, done + 1, k + 1, stamped + {names[k]}, executed + [names[k]],
                     if budget.Unlimited? then Unlimited else FailsAfter(budget.applied - 1));
        }
      }
    }
  }

  function Reached(n: nat, budgets: seq<Budget>): nat {
    if budgets == [] then 0
    else
      var k, b := Reached(n, budgets[..|budgets| - 1]), budgets[|budgets| - 1];
      if b.Unlimited? || k + b.applied > n then n else k + b.applied
  }

  /** After any sequence of runs the committed files are a prefix of the sorted names, each
      executed exactly once and stamped. */
  lemma {:induction false} RunsLeaveAPrefix(names: seq<Name>, budgets: seq<Budget>)
    requires Distinct(names)
    ensures Reached(|names|, budgets) <= |names|
    ensures Prefix(names, Reached(|names|, budgets), Runs(names, budgets).0, Runs(names, budgets).1)
  {
    if budgets != [] {
      var n := |budgets| - 1;
      RunsLeaveAPrefix(names, budgets[..n]);
      var (stamped, executed) := Runs(names, budgets[..n]);
      assert names[0..] == names;
      RunExtends(names, 0, Reached(|names|, budgets[..n]), stamped, executed, budgets[n]);
    }
  }

  /** An undisturbed run from whatever earlier runs left completes the list, and one more
      changes nothing. */
  lemma UninterruptedCompletes(names: seq<Name>, budgets: seq<Budget>)
    requires Distinct(names)
    ensures var (stamped, executed) := Runs(names, budgets);
            var r := Applied(names, stamped, executed, Unlimited);
            r.0 && r.2 == names && Applied(names, r.1, r.2, Unlimited) == r
  {
    RunsLeaveAPrefix(names, budgets);
    var (stamped, executed) := Runs(names, budgets);
    assert names[0..] == names && names[..|names|] == names;
    RunExtends(names, 0, Reached(|names|, budgets), stamped, executed, Unlimited);
    var r := Applied(names, stamped, executed, Unlimited);
    RunExtends(names, 0, |names|, r.1, r.2, Unlimited);
  }
}
