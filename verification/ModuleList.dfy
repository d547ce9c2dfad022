/**
 * lpac/dlfcn-win32/dlfcn.c, lines 104-174: the doubly linked list of local modules,
 * rooted at a static first entry that carries no module.
 */
module ModuleList {
  import opened Bytes

  /** An HMODULE; 0 is NULL. */
  type Handle = nat

  class LocalObject {
    var module_: Handle
    var previous: LocalObject?
    var next: LocalObject?

    constructor (handle: Handle, before: LocalObject?)
      ensures module_ == handle && previous == before && next == null
    {
      module_, previous, next := handle, before, null;
    }
  }

  ghost predicate LinkedAt(objects: seq<LocalObject>, i: nat)
    requires i < |objects|
    reads objects[i]
  {
    && objects[i].next == (if i + 1 < |objects| then objects[i + 1] else null)
    && objects[i].previous == (if i > 0 then objects[i - 1] else null)
  }

  /** s with its first occurrence of x taken out. */
  function Without(s: seq<Handle>, x: Handle): seq<Handle> {
    if s == [] then [] else if s[0] == x then s[1..] else [s[0]] + Without(s[1..], x)
  }

  predicate Distinct(s: seq<Handle>) {
    forall i, j :: 0 <= i < j < |s| ==> s[i] != s[j]
  }

  /** What a call changes of the list: local_add, where malloc succeeds or not, and local_rem. */
  datatype Op = Added(handle: Handle, memory: bool) | Removed(handle: Handle)

  function Step(s: seq<Handle>, op: Op): seq<Handle> {
    if op.handle == 0 then s
    else match op
      case Added(h, memory) => if h in s || !memory then s else s + [h]
      case Removed(h) => Without(s, h)
  }

  class List {
    const first: LocalObject
    ghost var objects: seq<LocalObject>

    /** The objects in order are linked both ways, and only the first has no module. */
    ghost predicate Valid()
      reads this, objects
    {
      && objects != [] && objects[0] == first
      && (forall i, j :: 0 <= i < j < |objects| ==> objects[i] != objects[j])
      && (forall i :: 0 <= i < |objects| ==> LinkedAt(objects, i))
      && first.module_ == 0 && 0 !in Modules() && Distinct(Modules())
    }

    /** The modules on the list, in order. */
    ghost function Modules(): (s: seq<Handle>)
      requires objects != []
      reads this, objects
      ensures |s| == |objects| - 1
    {
      seq(|objects| - 1, i requires 0 <= i < |objects| - 1 reads this, objects => objects[i + 1].module_)
    }

    constructor ()
      ensures Valid() && Modules() == [] && fresh(objects)
    {
      first := new LocalObject(0, null);
      objects := [first];
    }

    /** lpac/dlfcn-win32/dlfcn.c:113-125 */
    method Search(handle: Handle) returns (found: LocalObject?, ghost at: nat)
      requires Valid()
      ensures found == null <==> handle == 0 || handle !in Modules()
      ensures found != null ==> 0 < at < |objects| && objects[at] == found && found.module_ == handle
    {
      at := 0;
      if handle == 0 {
        return null, 0;
      }
      var entry: LocalObject? := first;
      while entry != null
        invariant at <= |objects| && entry == (if at < |objects| then objects[at] else null)
        invariant at > 0 ==> handle !in Modules()[..at - 1]
        decreases |objects| - at
      {
        assert LinkedAt(objects, at);
        if entry.module_ == handle {
          assert Modules()[at - 1] == handle;
          return entry, at;
        }
        assert at > 0 ==> Modules()[..at] == Modules()[..at - 1] + [entry.module_];
        entry := entry.next;
        at := at + 1;
      }
      assert Modules()[..at - 1] == Modules();
      return null, 0;
    }

    /** lpac/dlfcn-win32/dlfcn.c:141 */
    method LastObject() returns (last: LocalObject)
      requires Valid()
      ensures last == objects[|objects| - 1]
    {
      last := first;
      ghost var at := 0;
      while last.next != null
        invariant at < |objects| && last == objects[at]
        decreases |objects| - at
      {
        assert LinkedAt(objects, at);
        last := last.next;
        at := at + 1;
      }
      assert LinkedAt(objects, at);
    }

    /** lpac/dlfcn-win32/dlfcn.c:127-154, with malloc succeeding or not */
    method Add(handle: Handle, memory: bool) returns (ok: bool)
      requires Valid()
      modifies this`objects, objects
      ensures Valid() && fresh(set o | o in objects && o !in old(objects))
      ensures ok == (handle == 0 || handle in old(Modules()) || memory)
      ensures Modules() == Step(old(Modules()), Added(handle, memory))
    {
      if handle == 0 {
        return true;
      }
      var found, _ := Search(handle);
      if found != null {
        return true;
      }
      var last := LastObject();
      if !memory {
        return false;
      }
      var entry := new LocalObject(handle, last);
      last.next := entry;
      objects := objects + [entry];
      forall i | 0 <= i < |objects|
        ensures LinkedAt(objects, i)
      {
        if i < |old(objects)| {
          assert old(LinkedAt(objects, i));
        }
      }
      assert Modules() == old(Modules()) + [handle];
      return true;
    }

    /** lpac/dlfcn-win32/dlfcn.c:156-174 */
    method Rem(handle: Handle)
      requires Valid()
      modifies this`objects, objects
      ensures Valid() && forall o :: o in objects ==> o in old(objects)
      ensures Modules() == Step(old(Modules()), Removed(handle))
    {
      hide LinkedAt, Without;
      if handle == 0 {
        return;
      }
      var entry, at := Search(handle);
      if entry == null {
        WithoutAbsent(Modules(), handle);
        return;
      }
      ghost var was, modules := objects, Modules();
      assert modules[at - 1] == handle;
      WithoutAt(modules, at - 1);
      assert modules[..at - 1] + modules[at..] == Without(modules, handle);
      Unlink(entry, at);
      assert forall o :: o in was[..at] + was[at + 1..] ==> o in was;
    }

    /** lpac/dlfcn-win32/dlfcn.c:168-171 */
    method Unlink(entry: LocalObject, ghost at: nat)
      requires Valid() && 0 < at < |objects| && objects[at] == entry
      modifies this`objects, objects
      ensures Valid() && objects == old(objects[..at] + objects[at + 1..])
      ensures Modules() == old(Modules()[..at - 1] + Modules()[at..])
    {
      assert LinkedAt(objects, at);
      if entry.next != null {
        entry.next.previous := entry.previous;
      }
      if entry.previous != null {
        entry.previous.next := entry.next;
      }
      objects := objects[..at] + objects[at + 1..];
      forall i | 0 <= i < |objects|
        ensures LinkedAt(objects, i)
      {
        assert objects[i] == old(objects)[if i < at then i else i + 1];
        assert old(LinkedAt(objects, if i < at then i else i + 1));
      }
      assert Modules() == old(Modules()[..at - 1] + Modules()[at..]);
    }
  }

  lemma {:induction false} WithoutAbsent(s: seq<Handle>, x: Handle)
    requires x !in s
    ensures Without(s, x) == s
  {
    if s != [] {
      WithoutAbsent(s[1..], x);
    }
  }

  lemma {:induction false} WithoutAt(s: seq<Handle>, i: nat)
    requires Distinct(s) && i < |s|
    ensures Without(s, s[i]) == s[..i] + s[i + 1..]
  {
    if i > 0 {
      WithoutAt(s[1..], i - 1);
      assert s[..i] + s[i + 1..] == [s[0]] + (s[1..][..i - 1] + s[1..][i..]);
    }
  }

  // ---- Whole runs

  function Run(ops: seq<Op>): seq<Handle> {
    if ops == [] then [] else Step(Run(Init(ops)), Last(ops))
  }

  /** The last call about a module that changed anything added it. */
  predicate LastAdded(ops: seq<Op>, h: Handle) {
    ops != [] &&
    if Last(ops) == Added(h, true) then true
    else if Last(ops) == Removed(h) then false
    else LastAdded(Init(ops), h)
  }

  /** A run keeps the modules distinct and lists exactly those that were added and not removed since. */
  lemma {:induction false} RunListsTheAdded(ops: seq<Op>)
    ensures Distinct(Run(ops)) && 0 !in Run(ops)
    ensures forall h :: h != 0 ==> (h in Run(ops) <==> LastAdded(ops, h))
  {
    hide Distinct;
    if ops == [] {
      assert Distinct([]) by { NoneDistinct(); }
    } else {
      var s, op := Run(Init(ops)), Last(ops);
      RunListsTheAdded(Init(ops));
      StepLists(s, op);
    }
  }

  /** The k-th call put the module on the list, and it has not been removed since. */
  predicate AddedAt(ops: seq<Op>, k: nat, h: Handle) {
    && k < |ops| && ops[k] == Added(h, true) && h != 0 && h !in Run(ops[..k])
    && forall n :: k < n < |ops| ==> ops[n] != Removed(h)
  }

  /** since says, for each module listed, which call put it there. */
  predicate Dated(ops: seq<Op>, since: seq<nat>) {
    && |since| == |Run(ops)|
    && (forall i, j :: 0 <= i < j < |since| ==> since[i] < since[j])
    && forall i :: 0 <= i < |since| ==> AddedAt(ops, since[i], Run(ops)[i])
  }

  /** The list keeps the order in which its modules were added. */
  lemma {:induction false} RunKeepsTheOrder(ops: seq<Op>) returns (since: seq<nat>)
    ensures Dated(ops, since)
  {
    hide Step, Distinct, Dated, Run;
    if ops == [] {
      since := [];
      NothingDated();
    } else {
      var init, op := Init(ops), Last(ops);
      since := RunKeepsTheOrder(init);
      RunListsTheAdded(init);
      RunSnoc(init, op);
      var i := StepPlaces(Run(init), op);
      if Run(ops) == Run(init) {
        DatedSame(init, op, since);
      } else if op.Added? {
        DatedAdded(init, op, since);
        since := since + [|init|];
      } else {
        DatedRemoved(init, op, since, i);
        since := since[..i] + since[i + 1..];
      }
    }
  }

  lemma NothingDated()
    ensures Dated([], [])
  {
  }

  lemma RunSnoc(init: seq<Op>, op: Op)
    ensures Run(init + [op]) == Step(Run(init), op)
  {
    assert Init(init + [op]) == init;
  }

  lemma DatedSame(init: seq<Op>, op: Op, since: seq<nat>)
    requires Dated(init, since) && Run(init + [op]) == Run(init)
    requires op.Removed? ==> op.handle !in Run(init)
    ensures Dated(init + [op], since)
  {
    hide Run, AddedAt;
    forall j | 0 <= j < |since|
      ensures AddedAt(init + [op], since[j], Run(init)[j])
    {
      StillAdded(init, op, since[j], Run(init)[j]);
    }
  }

  lemma DatedAdded(init: seq<Op>, op: Op, since: seq<nat>)
    requires Dated(init, since) && op.Added? && op.memory && op.handle != 0 && op.handle !in Run(init)
    requires Run(init + [op]) == Run(init) + [op.handle]
    ensures Dated(init + [op], since + [|init|])
  {
    hide Run;
    var ops, dates := init + [op], since + [|init|];
    assert ops[..|init|] == init;
    forall j | 0 <= j < |dates|
      ensures AddedAt(ops, dates[j], Run(ops)[j]) && (j < |since| ==> dates[j] < |init|)
    {
      if j < |since| {
        assert AddedAt(init, since[j], Run(init)[j]);
        StillAdded(init, op, since[j], Run(init)[j]);
      }
    }
  }

  lemma DatedRemoved(init: seq<Op>, op: Op, since: seq<nat>, i: nat)
    requires Dated(init, since) && op.Removed? && i < |Run(init)| && op.handle !in Run(init + [op])
    requires Run(init + [op]) == Run(init)[..i] + Run(init)[i + 1..]
    ensures i < |since| && Dated(init + [op], since[..i] + since[i + 1..])
  {
    hide Run, AddedAt;
    var ops, dates := init + [op], since[..i] + since[i + 1..];
    forall j | 0 <= j < |dates|
      ensures AddedAt(ops, dates[j], Run(ops)[j])
    {
      var k := if j < i then j else j + 1;
      assert Run(ops)[j] == Run(init)[k] && dates[j] == since[k];
      StillAdded(init, op, since[k], Run(init)[k]);
    }
  }

  /** A step changes nothing, adds at the end, or takes one module out. */
  lemma StepPlaces(s: seq<Handle>, op: Op) returns (i: nat)
    requires Distinct(s) && 0 !in s
    ensures Step(s, op) != s && op.Added? ==>
              op.memory && op.handle != 0 && op.handle !in s && Step(s, op) == s + [op.handle]
    ensures Step(s, op) != s && op.Removed? ==>
              i < |s| && s[i] == op.handle && Step(s, op) == s[..i] + s[i + 1..]
    ensures op.Removed? ==> op.handle !in Step(s, op)
  {
    i := 0;
    if op.Removed? && op.handle != 0 {
      if op.handle in s {
        i :| 0 <= i < |s| && s[i] == op.handle;
        WithoutAt(s, i);
        WithoutOne(s, i);
      } else {
        WithoutAbsent(s, op.handle);
      }
    }
  }

  lemma StillAdded(init: seq<Op>, op: Op, k: nat, h: Handle)
    requires AddedAt(init, k, h) && op != Removed(h)
    ensures AddedAt(init + [op], k, h)
  {
    assert (init + [op])[..k] == init[..k];
  }

  lemma NoneDistinct()
    ensures Distinct([])
  {
  }

  lemma StepLists(s: seq<Handle>, op: Op)
    requires Distinct(s) && 0 !in s
    ensures Distinct(Step(s, op)) && 0 !in Step(s, op)
    ensures forall h :: h != 0 ==>
              (h in Step(s, op) <==> op == Added(h, true) || (op != Removed(h) && h in s))
  {
    if op.Removed? && op.handle != 0 {
      if op.handle in s {
        var i :| 0 <= i < |s| && s[i] == op.handle;
        WithoutAt(s, i);
        WithoutOne(s, i);
      } else {
        WithoutAbsent(s, op.handle);
      }
    }
  }

  lemma WithoutOne(s: seq<Handle>, i: nat)
    requires Distinct(s) && i < |s|
    ensures Distinct(s[..i] + s[i + 1..])
    ensures forall h :: h in s[..i] + s[i + 1..] <==> h in s && h != s[i]
  {
    var r := s[..i] + s[i + 1..];
    forall h
      ensures h in r <==> h in s && h != s[i]
    {
      if h in s && h != s[i] {
        var j :| 0 <= j < |s| && s[j] == h;
        assert r[if j < i then j else j - 1] == h;
      }
    }
  }
}
