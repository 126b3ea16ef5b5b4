/** The ordered registry of pre-shutdown hooks. */
module Hooks {
  import opened Strings

  /** What a hook does when it runs: it succeeds or fails with an error text, and the names it registers on
      the registry it is running from. */
  datatype Hook = Hook(error: Option<string>, registers: seq<(string, Option<string>)>)

  datatype Entry = Entry(name: string, hook: Hook)

  /** Whether every name is registered once, and the index says where. */
  ghost predicate Indexed(entries: seq<Entry>, indexOf: map<string, nat>) {
    && (forall i :: 0 <= i < |entries| ==> entries[i].name in indexOf && indexOf[entries[i].name] == i)
    && (forall n :: n in indexOf ==> indexOf[n] < |entries| && entries[indexOf[n]].name == n)
  }

  /** An ordered map: the hook registered last under a name, in the place of the name's first registration. */
  function Registered(entries: seq<Entry>, name: string, hook: Hook): seq<Entry> {
    if entries == [] then [Entry(name, hook)]
    else if entries[0].name == name then [Entry(name, hook)] + entries[1..]
    else [entries[0]] + Registered(entries[1..], name, hook)
  }

  datatype Outcome = Completed(name: string) | Failed(name: string, error: string)

  function OutcomeOf(e: Entry): Outcome {
    match e.hook.error
    case None => Completed(e.name)
    case Some(error) => Failed(e.name, error)
  }

  function OutcomesOf(entries: seq<Entry>): (r: seq<Outcome>)
    ensures |r| == |entries|
  {
    if entries == [] then [] else OutcomesOf(entries[..|entries| - 1]) + [OutcomeOf(entries[|entries| - 1])]
  }

  function Failures(entries: seq<Entry>): seq<Outcome> {
    if entries == [] then []
    else
      var last := entries[|entries| - 1];
      Failures(entries[..|entries| - 1]) + if last.hook.error.Some? then [OutcomeOf(last)] else []
  }

  function RegisteredAll(entries: seq<Entry>, more: seq<(string, Option<string>)>): seq<Entry> {
    if more == [] then entries
    else
      var last := more[|more| - 1];
      Registered(RegisteredAll(entries, more[..|more| - 1]), last.0, Hook(last.1, []))
  }

  /** The registry after every hook of a list has run. */
  function RanAll(entries: seq<Entry>, hooks: seq<Entry>): seq<Entry> {
    if hooks == [] then entries
    else RegisteredAll(RanAll(entries, hooks[..|hooks| - 1]), hooks[|hooks| - 1].hook.registers)
  }

  /** Re-registering keeps every name where it is; a new name goes last. */
  lemma {:induction false} RegisteringKeepsOrder(entries: seq<Entry>, name: string, hook: Hook)
    ensures var after := Registered(entries, name, hook);
      && |after| >= |entries|
      && (forall i :: 0 <= i < |entries| ==> after[i].name == entries[i].name)
      && (forall i :: 0 <= i < |entries| && entries[i].name != name ==> after[i] == entries[i])
      && |after| == |entries| + (if exists e :: e in entries && e.name == name then 0 else 1)
      && Entry(name, hook) in after
  {
    if entries != [] && entries[0].name != name {
      RegisteringKeepsOrder(entries[1..], name, hook);
      assert entries == [entries[0]] + entries[1..];
    } else if entries != [] {
      assert entries[0] in entries;
    }
  }

  /** What a pass over some hooks reports: one outcome each, in their order, and of those the failures. */
  lemma {:induction false} PassReportsEach(entries: seq<Entry>)
    ensures |OutcomesOf(entries)| == |entries|
    ensures forall i :: 0 <= i < |entries| ==>
      OutcomesOf(entries)[i] == if entries[i].hook.error == None then Completed(entries[i].name)
                                else Failed(entries[i].name, entries[i].hook.error.value)
    ensures forall o :: o in Failures(entries) <==> o in OutcomesOf(entries) && o.Failed?
  {
    if entries != [] {
      var before, last := entries[..|entries| - 1], entries[|entries| - 1];
      PassReportsEach(before);
      assert OutcomesOf(entries) == OutcomesOf(before) + [OutcomeOf(last)];
    }
  }

  lemma {:induction false} RegisteredAt(entries: seq<Entry>, i: nat, name: string, hook: Hook)
    requires i < |entries| && entries[i].name == name
    requires forall j :: 0 <= j < i ==> entries[j].name != name
    ensures Registered(entries, name, hook) == entries[i := Entry(name, hook)]
  {
    if i > 0 {
      RegisteredAt(entries[1..], i - 1, name, hook);
      assert entries[i := Entry(name, hook)] == [entries[0]] + entries[1..][i - 1 := Entry(name, hook)];
    } else {
      assert entries[i := Entry(name, hook)] == [Entry(name, hook)] + entries[1..];
    }
  }

  lemma {:induction false} RegisteredLast(entries: seq<Entry>, name: string, hook: Hook)
    requires forall j :: 0 <= j < |entries| ==> entries[j].name != name
    ensures Registered(entries, name, hook) == entries + [Entry(name, hook)]
  {
    if entries != [] {
      RegisteredLast(entries[1..], name, hook);
      assert entries + [Entry(name, hook)] == [entries[0]] + (entries[1..] + [Entry(name, hook)]);
    }
  }

  class Registry {
    var entries: seq<Entry>
    var indexOf: map<string, nat>
    var log: seq<Outcome>

    ghost predicate Valid()
      reads this
    {
      Indexed(entries, indexOf)
    }

    constructor ()
      ensures Valid() && entries == [] && log == []
    {
      entries, indexOf, log := [], map[], [];
    }

    method AddPreShutdownHook(name: string, hook: Hook)
      requires Valid()
      modifies this`entries, this`indexOf
      ensures Valid() && entries == Registered(old(entries), name, hook)
    {
      if name in indexOf {
        var i := indexOf[name];
        RegisteredAt(entries, i, name, hook);
        entries := entries[i := entries[i].(hook := hook)];
        return;
      }
      RegisteredLast(entries, name, hook);
      indexOf := indexOf[name := |entries|];
      entries := entries + [Entry(name, hook)];
    }

    /** A hook that uses the registry while it runs. */
    method Invoke(hook: Hook)
      requires Valid()
      modifies this`entries, this`indexOf
      ensures Valid() && entries == RegisteredAll(old(entries), hook.registers)
    {
      for i := 0 to |hook.registers|
        invariant Valid() && entries == RegisteredAll(old(entries), hook.registers[..i])
      {
        assert hook.registers[..i + 1][..i] == hook.registers[..i];
        AddPreShutdownHook(hook.registers[i].0, Hook(hook.registers[i].1, []));
      }
      assert hook.registers[..|hook.registers|] == hook.registers;
    }

    /** One hook of a pass, and its record. */
    method RunHook(entry: Entry)
      requires Valid()
      modifies this
      ensures Valid() && log == old(log) + [OutcomeOf(entry)]
      ensures entries == RegisteredAll(old(entries), entry.hook.registers)
    {
      Invoke(entry.hook);
      match entry.hook.error {
        case Some(error) => log := log + [Failed(entry.name, error)];
        case None => log := log + [Completed(entry.name)];
      }
    }

    /** Every hook registered when the pass began runs once, in order, whatever the others do: a failure stops
        nothing, and a hook registered meanwhile waits for the next pass. */
    method RunPreShutdownHooks() returns (errors: seq<Outcome>)
      requires Valid()
      modifies this
      ensures Valid() && log == old(log) + OutcomesOf(old(entries))
      ensures errors == Failures(old(entries)) && entries == RanAll(old(entries), old(entries))
    {
      var snapshot := entries;
      errors := [];
      for i := 0 to |snapshot|
        invariant Valid() && log == old(log) + OutcomesOf(snapshot[..i])
        invariant errors == Failures(snapshot[..i]) && entries == RanAll(snapshot, snapshot[..i])
      {
        assert snapshot[..i + 1][..i] == snapshot[..i];
        RunHook(snapshot[i]);
        if snapshot[i].hook.error.Some? {
          errors := errors + [OutcomeOf(snapshot[i])];
        }
      }
      assert snapshot[..|snapshot|] == snapshot;
    }
  }
}
