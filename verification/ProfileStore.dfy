/**
 * gui/services/profile_store.py and its client mno/services/lpa_command.py: the list
 * of installed profiles in a JSON file that is replaced by renaming a temporary file.
 * One process writes at a time. JSON text is a pair of functions that undo each other.
 */
module ProfileStore {
  import opened Bytes

  datatype Profile = Profile(iccid: string, isdpAid: string, enabled: bool, matchingId: string, details: string)

  datatype Database = Database(eid: string, profiles: seq<Profile>, lastModified: string)

  // ---- What the operations mean

  /**
   * The search all calls share: by matching id when one is given, otherwise by ICCID, and in
   * either case by ISD-P AID. An absent argument is the empty string.
   */
  predicate Matches(p: Profile, iccid: string, isdpAid: string, matchingId: string) {
    || (matchingId != "" && p.matchingId == matchingId)
    || (iccid != "" && p.iccid == iccid && matchingId == "")
    || (isdpAid != "" && p.isdpAid == isdpAid)
  }

  /** The first profile found from the i-th on. */
  function Find(ps: seq<Profile>, iccid: string, isdpAid: string, matchingId: string, i: nat): (r: Option<nat>)
    requires i <= |ps|
    ensures r.Some? ==> i <= r.value < |ps| && Matches(ps[r.value], iccid, isdpAid, matchingId)
    ensures r.Some? ==> forall j :: i <= j < r.value ==> !Matches(ps[j], iccid, isdpAid, matchingId)
    ensures r.None? ==> forall j :: i <= j < |ps| ==> !Matches(ps[j], iccid, isdpAid, matchingId)
    decreases |ps| - i
  {
    if i == |ps| then None
    else if Matches(ps[i], iccid, isdpAid, matchingId) then Some(i)
    else Find(ps, iccid, isdpAid, matchingId, i + 1)
  }

  datatype Op =
    | Add(profile: Profile)
    | Enable(iccid: string, isdpAid: string)
    | Disable(iccid: string, isdpAid: string)
    | Delete(iccid: string, isdpAid: string, matchingId: string)
    | SetEid(eid: string)

  /** The profile an operation is about. */
  function Target(ps: seq<Profile>, op: Op): Option<nat> {
    match op
    case Add(p) => if p.matchingId == "" then None else Find(ps, "", "", p.matchingId, 0)
    case Enable(iccid, aid) => Find(ps, iccid, aid, "", 0)
    case Disable(iccid, aid) => Find(ps, iccid, aid, "", 0)
    case Delete(iccid, aid, id) => Find(ps, iccid, aid, id, 0)
    case SetEid(_) => None
  }

  predicate Succeeds(ps: seq<Profile>, op: Op) {
    var t := Target(ps, op);
    match op
    case Add(_) => t.None?
    case Enable(_, _) => t.Some?
    case Disable(_, _) => t.Some? && t.value < |ps| && ps[t.value].enabled
    case Delete(_, _, _) => t.Some? && t.value < |ps| && !ps[t.value].enabled
    case SetEid(_) => true
  }

  /** Profile t enabled and all others disabled. */
  function Selected(ps: seq<Profile>, t: nat): (r: seq<Profile>)
    ensures |r| == |ps|
  {
    seq(|ps|, i requires 0 <= i < |ps| => ps[i].(enabled := i == t))
  }

  function Without(ps: seq<Profile>, t: nat): seq<Profile>
    requires t < |ps|
  {
    ps[..t] + ps[t + 1..]
  }

  /** The profiles after an operation. */
  function Apply(ps: seq<Profile>, op: Op): seq<Profile> {
    if !Succeeds(ps, op) then ps
    else
      var t := Target(ps, op);
      match op
      case Add(p) => ps + [p]
      case Enable(_, _) => Selected(ps, t.value)
      case Disable(_, _) => ps[t.value := ps[t.value].(enabled := false)]
      case Delete(_, _, _) => Without(ps, t.value)
      case SetEid(_) => ps
  }

  function EidAfter(eid: string, op: Op): string {
    if op.SetEid? then op.eid else eid
  }

  /** The t-th profile is the first that the search finds. */
  predicate FirstMatch(ps: seq<Profile>, iccid: string, isdpAid: string, matchingId: string, t: nat) {
    && t < |ps| && Matches(ps[t], iccid, isdpAid, matchingId)
    && forall j :: 0 <= j < t ==> !Matches(ps[j], iccid, isdpAid, matchingId)
  }

  predicate NoMatch(ps: seq<Profile>, iccid: string, isdpAid: string, matchingId: string) {
    forall j :: 0 <= j < |ps| ==> !Matches(ps[j], iccid, isdpAid, matchingId)
  }

  /** Deleting takes out exactly the first match, if it is disabled; all others keep their order and contents. */
  lemma DeletedExactly(ps: seq<Profile>, iccid: string, isdpAid: string, matchingId: string, t: nat)
    ensures var op := Delete(iccid, isdpAid, matchingId);
            var r := Apply(ps, op);
            && (NoMatch(ps, iccid, isdpAid, matchingId) ==> !Succeeds(ps, op) && r == ps)
            && (FirstMatch(ps, iccid, isdpAid, matchingId, t) ==>
                  && (Succeeds(ps, op) <==> !ps[t].enabled)
                  && if ps[t].enabled then r == ps
                     else && |r| == |ps| - 1
                          && forall i :: 0 <= i < |r| ==> r[i] == if i < t then ps[i] else ps[i + 1])
  {
  }

  /** After enabling, exactly the first match is enabled, and nothing else is changed. */
  lemma EnabledExactly(ps: seq<Profile>, iccid: string, isdpAid: string, t: nat)
    ensures var op := Enable(iccid, isdpAid);
            var r := Apply(ps, op);
            && (NoMatch(ps, iccid, isdpAid, "") ==> !Succeeds(ps, op) && r == ps)
            && (FirstMatch(ps, iccid, isdpAid, "", t) ==>
                  && Succeeds(ps, op) && |r| == |ps|
                  && forall i :: 0 <= i < |r| ==>
                       && (r[i].enabled <==> i == t)
                       && r[i].iccid == ps[i].iccid && r[i].isdpAid == ps[i].isdpAid
                       && r[i].matchingId == ps[i].matchingId && r[i].details == ps[i].details)
  {
  }

  /** Disabling changes the first match alone, if it is enabled. */
  lemma DisabledExactly(ps: seq<Profile>, iccid: string, isdpAid: string, t: nat)
    ensures var op := Disable(iccid, isdpAid);
            var r := Apply(ps, op);
            && (NoMatch(ps, iccid, isdpAid, "") ==> !Succeeds(ps, op) && r == ps)
            && (FirstMatch(ps, iccid, isdpAid, "", t) ==>
                  && (Succeeds(ps, op) <==> ps[t].enabled) && |r| == |ps|
                  && (forall i :: 0 <= i < |r| && i != t ==> r[i] == ps[i])
                  && r[t] == ps[t].(enabled := false))
  {
  }

  /** Adding puts the profile last, unless its matching id is there already. */
  lemma AddedExactly(ps: seq<Profile>, p: Profile)
    ensures var r := Apply(ps, Add(p));
            && (Succeeds(ps, Add(p)) <==>
                  p.matchingId == "" || forall i :: 0 <= i < |ps| ==> ps[i].matchingId != p.matchingId)
            && r == if Succeeds(ps, Add(p)) then ps + [p] else ps
  {
    assert forall i :: 0 <= i < |ps| && p.matchingId != "" ==>
        (Matches(ps[i], "", "", p.matchingId) <==> ps[i].matchingId == p.matchingId);
  }

  // ---- Whole runs

  function Run(ops: seq<Op>): seq<Profile> {
    if ops == [] then [] else Apply(Run(Init(ops)), Last(ops))
  }

  predicate OneEnabled(ps: seq<Profile>) {
    forall i, j :: 0 <= i < j < |ps| ==> !(ps[i].enabled && ps[j].enabled)
  }

  predicate DistinctIds(ps: seq<Profile>) {
    forall i, j :: 0 <= i < j < |ps| && ps[i].matchingId != "" ==> ps[i].matchingId != ps[j].matchingId
  }

  /** An operation keeps at most one profile enabled, except exactly the adding of a second enabled one. */
  lemma OneEnabledExactly(ps: seq<Profile>, op: Op)
    requires OneEnabled(ps)
    ensures OneEnabled(Apply(ps, op))
       <==> !(op.Add? && Succeeds(ps, op) && op.profile.enabled && exists i :: 0 <= i < |ps| && ps[i].enabled)
  {
    hide Find;
    if Succeeds(ps, op) {
      match op
      case Add(p) =>
        var r := ps + [p];
        if i :| 0 <= i < |ps| && ps[i].enabled {
          assert r[i] == ps[i] && r[|ps|] == p;
        }
      case Enable(_, _) =>
      case Disable(_, _) =>
      case Delete(_, _, _) =>
      case SetEid(_) =>
    }
  }

  lemma IdsStayDistinct(ps: seq<Profile>, op: Op)
    requires DistinctIds(ps)
    ensures DistinctIds(Apply(ps, op))
  {
    if op.Add? && op.profile.matchingId != "" && Succeeds(ps, op) {
      assert forall j :: 0 <= j < |ps| ==> !Matches(ps[j], "", "", op.profile.matchingId);
    }
  }

  /** Profiles are added disabled. */
  predicate AddsDisabled(ops: seq<Op>) {
    forall i :: 0 <= i < |ops| && ops[i].Add? ==> !ops[i].profile.enabled
  }

  /** When profiles are added disabled, at most one is ever enabled; matching ids never clash. */
  lemma {:induction false} RunIsSound(ops: seq<Op>)
    requires AddsDisabled(ops)
    ensures OneEnabled(Run(ops)) && DistinctIds(Run(ops))
  {
    hide Apply, OneEnabled, DistinctIds, Succeeds;
    if ops == [] {
      NothingClashes();
    } else {
      RunIsSound(Init(ops));
      OneEnabledExactly(Run(Init(ops)), Last(ops));
      IdsStayDistinct(Run(Init(ops)), Last(ops));
    }
  }

  lemma NothingClashes()
    ensures OneEnabled([]) && DistinctIds([])
  {
  }

  /** Deletion by ICCID as the operator's service does it: find the profile, then delete by its matching id. */
  function DeleteByIccid(ps: seq<Profile>, iccid: string): (seq<Profile>, bool) {
    var t := Find(ps, iccid, "", "", 0);
    if t.None? then (ps, false)
    else
      var op := Delete("", "", ps[t.value].matchingId);
      (Apply(ps, op), Succeeds(ps, op))
  }

  /**
   * It removes exactly the first profile with that ICCID when that one is disabled and has a
   * matching id, and otherwise nothing.
   */
  lemma DeleteByIccidRemovesTheFirst(ps: seq<Profile>, iccid: string)
    requires DistinctIds(ps)
    ensures DeleteByIccid(ps, iccid)
         == var t := Find(ps, iccid, "", "", 0);
            if t.Some? && !ps[t.value].enabled && ps[t.value].matchingId != "" then (Without(ps, t.value), true)
            else (ps, false)
  {
    var t := Find(ps, iccid, "", "", 0);
    if t.Some? {
      var id := ps[t.value].matchingId;
      var d := Find(ps, "", "", id, 0);
      if id != "" {
        assert Matches(ps[t.value], "", "", id);
        assert d.Some?;
        assert ps[d.value].matchingId == id;
      }
    }
  }

  // ---- Histories of calls that may be cut short

  /** How a call ends: done, stopped dead, or by an exception. */
  datatype Ending = Done | Crashed | Raised

  /** The database that an operation writes. */
  function After(was: Database, op: Op, now: string): Database {
    Database(EidAfter(was.eid, op), Apply(was.profiles, op), now)
  }

  /** What a call may leave in the file, by how it ends. Every call of a Store keeps to this. */
  predicate Follows(was: Database, op: Op, now: string, e: Ending, next: Database) {
    match e
    case Done => next == if Succeeds(was.profiles, op) then After(was, op, now) else was
    case Raised => next == was
    case Crashed => next == was || (Succeeds(was.profiles, op) && next == After(was, op, now))
  }

  /** A call, how it ended, and what the file held then. */
  datatype Entry = Entry(op: Op, now: string, e: Ending, next: Database)

  /** What the file held after the first n calls. */
  function At(first: Database, calls: seq<Entry>, n: nat): Database
    requires n <= |calls|
  {
    if n == 0 then first else calls[n - 1].next
  }

  predicate History(first: Database, calls: seq<Entry>) {
    forall i :: 0 <= i < |calls| ==> Follows(At(first, calls, i), calls[i].op, calls[i].now, calls[i].e, calls[i].next)
  }

  /** The operations of the first n calls that were done or whose effect is in the file. */
  function Landed(first: Database, calls: seq<Entry>, n: nat): seq<Op>
    requires n <= |calls|
  {
    if n == 0 then []
    else
      var c := calls[n - 1];
      var before := Landed(first, calls, n - 1);
      if c.e == Done || c.next != At(first, calls, n - 1) then before + [c.op] else before
  }

  function EidOf(first: string, ops: seq<Op>): string {
    if ops == [] then first else EidAfter(EidOf(first, Init(ops)), Last(ops))
  }

  /**
   * However calls are cut short, at every moment the file holds exactly what the calls that landed
   * would have left by themselves. When profiles are added disabled, at most one is then enabled,
   * and matching ids never clash.
   */
  lemma {:induction false} FileHoldsWhatLanded(first: Database, calls: seq<Entry>, n: nat)
    requires n <= |calls| && History(first, calls) && first.profiles == []
    ensures var ops := Landed(first, calls, n);
            && At(first, calls, n).profiles == Run(ops)
            && At(first, calls, n).eid == EidOf(first.eid, ops)
    ensures (forall i :: 0 <= i < n && calls[i].op.Add? ==> !calls[i].op.profile.enabled)
        ==> OneEnabled(At(first, calls, n).profiles) && DistinctIds(At(first, calls, n).profiles)
  {
    hide Succeeds, OneEnabled, DistinctIds;
    LandedIsWritten(first, calls, n);
    if forall i :: 0 <= i < n && calls[i].op.Add? ==> !calls[i].op.profile.enabled {
      LandedAddsDisabled(first, calls, n);
      RunIsSound(Landed(first, calls, n));
    }
  }

  lemma {:induction false} LandedIsWritten(first: Database, calls: seq<Entry>, n: nat)
    requires n <= |calls| && History(first, calls) && first.profiles == []
    ensures At(first, calls, n).profiles == Run(Landed(first, calls, n))
    ensures At(first, calls, n).eid == EidOf(first.eid, Landed(first, calls, n))
  {
    hide Apply, EidAfter, Follows;
    if n > 0 {
      LandedIsWritten(first, calls, n - 1);
      var c, before := calls[n - 1], Landed(first, calls, n - 1);
      assert Follows(At(first, calls, n - 1), c.op, c.now, c.e, c.next);
      LandsOrLeaves(At(first, calls, n - 1), c);
      if c.e == Done || c.next != At(first, calls, n - 1) {
        assert Init(before + [c.op]) == before;
      }
    }
  }

  lemma LandsOrLeaves(was: Database, c: Entry)
    requires Follows(was, c.op, c.now, c.e, c.next)
    ensures if c.e == Done || c.next != was
            then c.next.profiles == Apply(was.profiles, c.op) && c.next.eid == EidAfter(was.eid, c.op)
            else c.next == was
  {
  }

  lemma {:induction false} LandedAddsDisabled(first: Database, calls: seq<Entry>, n: nat)
    requires n <= |calls|
    requires forall i :: 0 <= i < n && calls[i].op.Add? ==> !calls[i].op.profile.enabled
    ensures AddsDisabled(Landed(first, calls, n))
  {
    if n > 0 {
      LandedAddsDisabled(first, calls, n - 1);
    }
  }

  // ---- The file

  /** JSON text: json.dump and json.load. */
  datatype Json = Json(dump: Database -> string, load: string -> Option<Database>)

  ghost predicate Faithful(json: Json) {
    forall d :: json.load(json.dump(d)) == Some(d)
  }

  /** A file: what is written to it, and how much of that is sure to outlast a crash. */
  datatype File = File(text: string, synced: nat)

  /** What can be found in a file after a crash. */
  predicate Remains(f: File, text: string) {
    text <= f.text && f.synced <= |text|
  }

  /** Whatever a crash leaves of the file is all of it. */
  ghost predicate Durable(f: File) {
    forall text :: Remains(f, text) ==> text == f.text
  }

  lemma SyncedIsDurable(f: File)
    requires f.synced == |f.text|
    ensures Durable(f)
  {
  }

  /** When and how a write is cut short: before its step-th step. */
  datatype Fate = Fate(step: nat, crash: bool)

  class Store {
    const json: Json
    var db: File
    /** Temporary files, with those that crashes left behind. */
    var temps: seq<File>

    /** The database file is whole and stays so through a crash. */
    ghost predicate Valid()
      reads this
    {
      Faithful(json) && Durable(db) && json.load(db.text).Some?
    }

    function Data(): Database
      requires json.load(db.text).Some?
      reads this
    {
      json.load(db.text).value
    }

    /** Whether this step is the one that is not reached. */
    predicate Stops(fate: Fate, step: nat) {
      fate.step == step
    }

    /**
     * gui/services/profile_store.py:94-121. The steps are: make the temporary file, write each character,
     * sync, rename, return.
     */
    method WriteAtomic(data: Database, now: string, fate: Fate) returns (e: Ending)
      requires Valid()
      modifies this
      ensures Valid()
      ensures e == Done ==> Data() == data.(lastModified := now) && temps == old(temps)
      ensures e == Raised ==> db == old(db) && temps == old(temps)
      ensures e == Crashed ==> db == old(db) || Data() == data.(lastModified := now)
      ensures old(temps) <= temps && |temps| <= |old(temps)| + 1
      ensures e == Raised ==> !fate.crash
      ensures e == Crashed ==> fate.crash
    {
      hide Durable;
      ghost var after := data.(lastModified := now);
      var text := json.dump(data.(lastModified := now));
      assert json.load(json.dump(after)) == Some(after);
      var step := 0;
      if Stops(fate, step) {
        return if fate.crash then Crashed else Raised;
      }
      temps := temps + [File("", 0)];
      var written := "";
      while |written| < |text|
        invariant written <= text && temps == old(temps) + [File(written, 0)] && db == old(db)
      {
        step := step + 1;
        if Stops(fate, step) {
          e := Abandon(fate);
          return e;
        }
        written := text[..|written| + 1];
        temps := temps[|temps| - 1 := File(written, 0)];
      }
      assert written == text;
      step := step + 1;
      if Stops(fate, step) {
        e := Abandon(fate);
        return e;
      }
      temps := temps[|temps| - 1 := File(written, |written|)];
      step := step + 1;
      if Stops(fate, step) {
        e := Abandon(fate);
        return e;
      }
      SyncedIsDurable(Last(temps));
      db := Last(temps);
      temps := Init(temps);
      step := step + 1;
      return if fate.crash && Stops(fate, step) then Crashed else Done;
    }

    /** The cleanup after an exception; a crash leaves the temporary file. gui/services/profile_store.py:117-121 */
    method Abandon(fate: Fate) returns (e: Ending)
      requires temps != []
      modifies `temps
      ensures e == if fate.crash then Crashed else Raised
      ensures temps == if fate.crash then old(temps) else Init(old(temps))
    {
      if fate.crash {
        return Crashed;
      }
      temps := Init(temps);
      return Raised;
    }

    /** The search loop of every operation: gui/services/profile_store.py:177-181, 208-211 and 235-243. */
    method Search(ps: seq<Profile>, iccid: string, isdpAid: string, matchingId: string) returns (t: Option<nat>)
      ensures t == Find(ps, iccid, isdpAid, matchingId, 0)
    {
      var i := 0;
      while i < |ps|
        invariant i <= |ps| && Find(ps, iccid, isdpAid, matchingId, i) == Find(ps, iccid, isdpAid, matchingId, 0)
      {
        if matchingId != "" && ps[i].matchingId == matchingId {
          return Some(i);
        }
        if (iccid != "" && ps[i].iccid == iccid && matchingId == "") || (isdpAid != "" && ps[i].isdpAid == isdpAid) {
          return Some(i);
        }
        i := i + 1;
      }
      return None;
    }

    /** What an operation leaves in the file: its result, or what was there when it fails or does not get that far. */
    twostate predicate Performed(op: Op, now: string, e: Ending)
      requires old(Valid()) && Valid()
      reads this
    {
      && Follows(old(Data()), op, now, e, Data())
      && (e == Raised ==> db == old(db))
      && (e == Crashed ==> db == old(db) || Data() == After(old(Data()), op, now))
    }

    /** gui/services/profile_store.py:148-164 */
    method AddProfile(profile: Profile, now: string, fate: Fate) returns (ok: bool, e: Ending)
      requires Valid()
      modifies this
      ensures Valid() && Performed(Add(profile), now, e)
      ensures e == Done ==> ok == Succeeds(old(Data()).profiles, Add(profile))
    {
      hide Find;
      var data := Data();
      if profile.matchingId != "" {
        var t := Search(data.profiles, "", "", profile.matchingId);
        if t.Some? {
          return false, Done;
        }
      }
      data := data.(profiles := data.profiles + [profile]);
      e := WriteAtomic(data, now, fate);
      return true, e;
    }

    /** gui/services/profile_store.py:166-195 */
    method EnableProfile(iccid: string, isdpAid: string, now: string, fate: Fate) returns (ok: bool, e: Ending)
      requires Valid()
      modifies this
      ensures Valid() && Performed(Enable(iccid, isdpAid), now, e)
      ensures e == Done ==> ok == Succeeds(old(Data()).profiles, Enable(iccid, isdpAid))
    {
      hide Find;
      var data := Data();
      var ps := data.profiles;
      var t := Search(ps, iccid, isdpAid, "");
      if t.None? {
        return false, Done;
      }
      for i := 0 to |ps|
        invariant |ps| == |data.profiles|
        invariant forall j :: i <= j < |ps| ==> ps[j] == data.profiles[j]
        invariant forall j :: 0 <= j < i ==>
                    ps[j] == data.profiles[j].(enabled := j == t.value && data.profiles[j].enabled)
      {
        if i != t.value && ps[i].enabled {
          ps := ps[i := ps[i].(enabled := false)];
        }
      }
      ps := ps[t.value := ps[t.value].(enabled := true)];
      assert ps == Selected(data.profiles, t.value);
      data := data.(profiles := ps);
      e := WriteAtomic(data, now, fate);
      return true, e;
    }

    /** gui/services/profile_store.py:197-222 */
    method DisableProfile(iccid: string, isdpAid: string, now: string, fate: Fate) returns (ok: bool, e: Ending)
      requires Valid()
      modifies this
      ensures Valid() && Performed(Disable(iccid, isdpAid), now, e)
      ensures e == Done ==> ok == Succeeds(old(Data()).profiles, Disable(iccid, isdpAid))
    {
      hide Find;
      var data := Data();
      var t := Search(data.profiles, iccid, isdpAid, "");
      if t.None? {
        return false, Done;
      }
      var p := data.profiles[t.value];
      if !p.enabled {
        return false, Done;
      }
      data := data.(profiles := data.profiles[t.value := p.(enabled := false)]);
      e := WriteAtomic(data, now, fate);
      return true, e;
    }

    /** gui/services/profile_store.py:224-255 */
    method DeleteProfile(iccid: string, isdpAid: string, matchingId: string, now: string, fate: Fate)
      returns (ok: bool, e: Ending)
      requires Valid()
      modifies this
      ensures Valid() && Performed(Delete(iccid, isdpAid, matchingId), now, e)
      ensures e == Done ==> ok == Succeeds(old(Data()).profiles, Delete(iccid, isdpAid, matchingId))
    {
      hide Find;
      var data := Data();
      var t := Search(data.profiles, iccid, isdpAid, matchingId);
      if t.None? {
        return false, Done;
      }
      if data.profiles[t.value].enabled {
        return false, Done;
      }
      data := data.(profiles := data.profiles[..t.value] + data.profiles[t.value + 1..]);
      e := WriteAtomic(data, now, fate);
      return true, e;
    }

    /** gui/services/profile_store.py:262-266 */
    method ReplaceEid(eid: string, now: string, fate: Fate) returns (e: Ending)
      requires Valid()
      modifies this
      ensures Valid() && Performed(SetEid(eid), now, e)
    {
      var data := Data().(eid := eid);
      e := WriteAtomic(data, now, fate);
    }

    /** gui/services/profile_store.py:128-138 */
    method GetProfile(iccid: string, isdpAid: string, matchingId: string) returns (p: Option<Profile>)
      requires Valid()
      ensures var t := Find(Data().profiles, iccid, isdpAid, matchingId, 0);
              p == if t.Some? then Some(Data().profiles[t.value]) else None
    {
      var t := Search(Data().profiles, iccid, isdpAid, matchingId);
      return if t.Some? then Some(Data().profiles[t.value]) else None;
    }

    /** mno/services/lpa_command.py:118-132 */
    method DeleteByIccidForMno(iccid: string, now: string, fate: Fate) returns (ok: bool, e: Ending)
      requires Valid()
      modifies this
      ensures Valid()
      ensures var t := Find(old(Data()).profiles, iccid, "", "", 0);
              if t.None? then e == Done && db == old(db)
              else Performed(Delete("", "", old(Data()).profiles[t.value].matchingId), now, e)
      ensures e == Done ==> (Data().profiles, ok) == DeleteByIccid(old(Data()).profiles, iccid)
      ensures e == Raised ==> db == old(db)
      ensures e == Crashed ==> Data().profiles in [old(Data()).profiles, DeleteByIccid(old(Data()).profiles, iccid).0]
    {
      hide Find, Succeeds;
      var p := GetProfile(iccid, "", "");
      if p.None? {
        return false, Done;
      }
      ok, e := DeleteProfile("", "", p.value.matchingId, now, fate);
    }
  }
}
