/** OU.Update: the planner (ou.go) and the script that executes its payload in a fixed
    order (internal/adscript/ops/ou_update.ps1).  When two container names are the same is
    a parameter: a canonical key, absent when the name does not parse. */
module OUUpdate {
  import opened Common
  import opened Strings

  type DN = string

  type KeyOf = DN -> Option<string>

  datatype OU = OU(name: string, container: DN, description: string, protected: bool)

  /** None leaves a field alone; an empty description clears it. */
  datatype OUSpec = OUSpec(name: string, container: DN, description: Option<string>, protected: Option<bool>)

  datatype Edit = Param(value: string) | Clear

  datatype Payload = Payload(set_: Option<Edit>, rename: Option<string>, move: Option<DN>,
                             unprotectBeforeMove: bool, protect: Option<bool>)
  {
    predicate Empty() {
      set_.None? && rename.None? && move.None? && protect.None?
    }
  }

  datatype UpdateError = BadName | NotFound | AccessDenied | CmdletFailed

  /** What an Update is called with: a GUID, which stays an object's own, or the
      distinguished name of an object with this name in this container. */
  datatype Identity = Stable | ByName(name: string, container: DN)

  // ---------- What an update is for ----------

  predicate SameContainer(key: KeyOf, a: DN, b: DN) {
    key(a).Some? && key(a) == key(b)
  }

  /** The object meets the spec. */
  predicate Meets(key: KeyOf, ou: OU, spec: OUSpec) {
    && ou.name == spec.name
    && SameContainer(key, ou.container, spec.container)
    && (spec.description.Some? ==> ou.description == spec.description.value)
    && (spec.protected.Some? ==> ou.protected == spec.protected.value)
  }

  /** Fields the spec leaves alone are as they were. */
  predicate KeepsRest(ou: OU, ou': OU, spec: OUSpec) {
    && (spec.description.None? ==> ou'.description == ou.description)
    && (spec.protected.None? ==> ou'.protected == ou.protected)
  }

  /** The identity leads to the object as it now is. */
  predicate Resolves(key: KeyOf, id: Identity, ou: OU) {
    id.Stable? || (Fold(ou.name) == Fold(id.name) && SameContainer(key, ou.container, id.container))
  }

  /** The object's distinguished name is not to change, letter case aside. */
  predicate SameDN(key: KeyOf, ou: OU, spec: OUSpec) {
    Fold(ou.name) == Fold(spec.name) && SameContainer(key, spec.container, ou.container)
  }

  // ---------- Executing a payload ----------

  /** The cmdlets the script can issue. */
  datatype Step = SetDescription(e: Edit) | Rename(name: string) | Unprotect | Move(target: DN) | Protect(on: bool)

  /** The script's guarded writes, in its order. */
  const WRITES: nat := 5

  function Write(p: Payload, i: nat): Option<Step>
    requires i < WRITES
  {
    if i == 0 then (if p.set_.Some? then Some(SetDescription(p.set_.value)) else None)
    else if i == 1 then (if p.rename.Some? then Some(Rename(p.rename.value)) else None)
    else if i == 2 then (if p.move.Some? && p.unprotectBeforeMove then Some(Unprotect) else None)
    else if i == 3 then (if p.move.Some? then Some(Move(p.move.value)) else None)
    else if p.protect.Some? then Some(Protect(p.protect.value)) else None
  }

  /** One cmdlet; moving a protected object is refused. */
  function Do(s: Step, ou: OU): Option<OU> {
    match s
    case SetDescription(e) => Some(ou.(description := if e.Param? then e.value else ""))
    case Rename(n) => Some(ou.(name := n))
    case Unprotect => Some(ou.(protected := false))
    case Move(t) => if ou.protected then None else Some(ou.(container := t))
    case Protect(b) => Some(ou.(protected := b))
  }

  /** The object after the first `j` guarded writes, and whether none was refused. */
  function RunTo(p: Payload, j: nat, ou: OU): (OU, bool)
    requires j <= WRITES
  {
    if j == 0 then (ou, true)
    else
      var (o, ok) := RunTo(p, j - 1, ou);
      if !ok || Write(p, j - 1).None? then (o, ok)
      else match Do(Write(p, j - 1).value, o)
        case None => (o, false)
        case Some(o') => (o', true)
  }

  function Run(p: Payload, ou: OU): (OU, bool) {
    RunTo(p, WRITES, ou)
  }

  function Described(p: Payload, ou: OU): OU {
    if p.set_.Some? then ou.(description := if p.set_.value.Param? then p.set_.value.value else "") else ou
  }

  function Renamed(p: Payload, ou: OU): OU {
    if p.rename.Some? then ou.(name := p.rename.value) else ou
  }

  /** The object when the move is about to be made. */
  function BeforeMove(p: Payload, ou: OU): OU {
    var o := Renamed(p, Described(p, ou));
    if p.move.Some? && p.unprotectBeforeMove then o.(protected := false) else o
  }

  function Moved(p: Payload, ou: OU): OU {
    if p.move.Some? then BeforeMove(p, ou).(container := p.move.value) else BeforeMove(p, ou)
  }

  function Restored(p: Payload, ou: OU): OU {
    if p.protect.Some? then Moved(p, ou).(protected := p.protect.value) else Moved(p, ou)
  }

  lemma RunStep(p: Payload, j: nat, ou: OU)
    requires 0 < j <= WRITES
    ensures
      var (o, ok) := RunTo(p, j - 1, ou);
      RunTo(p, j, ou) ==
      if !ok || Write(p, j - 1).None? then (o, ok)
      else if Do(Write(p, j - 1).value, o).None? then (o, false)
      else (Do(Write(p, j - 1).value, o).value, true)
  {
  }

  /** Every prefix of the script, without the recursion. */
  lemma RunUnrolled(p: Payload, ou: OU)
    ensures RunTo(p, 0, ou) == (ou, true)
    ensures RunTo(p, 1, ou) == (Described(p, ou), true)
    ensures RunTo(p, 2, ou) == (Renamed(p, Described(p, ou)), true)
    ensures RunTo(p, 3, ou) == (BeforeMove(p, ou), true)
    ensures RunTo(p, 4, ou)
         == if p.move.Some? && BeforeMove(p, ou).protected then (BeforeMove(p, ou), false) else (Moved(p, ou), true)
    ensures Run(p, ou)
         == if p.move.Some? && BeforeMove(p, ou).protected then (BeforeMove(p, ou), false) else (Restored(p, ou), true)
  {
    RunStarts(p, ou);
    hide RunTo;
    RunStep(p, 1, ou);
    RunStep(p, 2, ou);
    RunStep(p, 3, ou);
    RunStep(p, 4, ou);
    RunStep(p, 5, ou);
  }

  lemma RunStarts(p: Payload, ou: OU)
    ensures RunTo(p, 0, ou) == (ou, true)
  {
  }

  // ---------- A script that is refused somewhere ----------

  /** The circumstances of one execution: the identity every cmdlet is given, what the
      directory refuses for reasons of its own, and whether the last read fails. */
  datatype Call = Call(key: KeyOf, id: Identity, refuses: Step -> bool, readFails: bool)
  {
    predicate Finds(ou: OU) {
      Resolves(key, id, ou)
    }

    /** The directory refuses nothing it would not refuse anyway. */
    ghost predicate Unrefused() {
      !readFails && forall s :: !refuses(s)
    }
  }

  /** The cmdlet cannot be carried out on the object: its identity does not lead there any
      more, the directory refuses it, or it would move a protected object. */
  predicate Fails(call: Call, s: Step, ou: OU) {
    !call.Finds(ou) || call.refuses(s) || Do(s, ou).None?
  }

  predicate RefusedAt(call: Call, p: Payload, j: nat, ou: OU)
    requires j < WRITES
  {
    Write(p, j).Some? && Fails(call, Write(p, j).value, RunTo(p, j, ou).0)
  }

  /** How many guarded writes are passed before one is refused. */
  function Reached(call: Call, p: Payload, j: nat, ou: OU): (k: nat)
    requires j <= WRITES
    ensures j <= k <= WRITES
    ensures forall i :: j <= i < k ==> !RefusedAt(call, p, i, ou)
    ensures k < WRITES ==> RefusedAt(call, p, k, ou)
    decreases WRITES - j
  {
    if j == WRITES || RefusedAt(call, p, j, ou) then j else Reached(call, p, j + 1, ou)
  }

  lemma ReachedStep(call: Call, p: Payload, j: nat, ou: OU)
    requires j <= WRITES
    ensures Reached(call, p, j, ou)
         == if j == WRITES || RefusedAt(call, p, j, ou) then j else Reached(call, p, j + 1, ou)
  {
    hide RefusedAt;
  }

  /** Where an execution stops, write by write. */
  lemma AllSteps(call: Call, p: Payload, ou: OU)
    ensures Reached(call, p, 0, ou)
         == if RefusedAt(call, p, 0, ou) then 0 else if RefusedAt(call, p, 1, ou) then 1
            else if RefusedAt(call, p, 2, ou) then 2 else if RefusedAt(call, p, 3, ou) then 3
            else if RefusedAt(call, p, 4, ou) then 4 else 5
  {
    hide RefusedAt, Reached;
    ReachedStep(call, p, 0, ou);
    ReachedStep(call, p, 1, ou);
    ReachedStep(call, p, 2, ou);
    ReachedStep(call, p, 3, ou);
    ReachedStep(call, p, 4, ou);
    ReachedStep(call, p, 5, ou);
  }

  /** Up to there nothing was refused. */
  lemma {:induction false} ReachedUnrefused(call: Call, p: Payload, j: nat, ou: OU)
    requires j <= WRITES && forall i :: 0 <= i < j ==> !RefusedAt(call, p, i, ou)
    ensures RunTo(p, j, ou).1
  {
    if j > 0 {
      ReachedUnrefused(call, p, j - 1, ou);
      assert !RefusedAt(call, p, j - 1, ou);
    }
  }

  /** The first `j` writes have been passed, leaving `ou`. */
  predicate Progress(call: Call, p: Payload, was: OU, j: nat, ou: OU) {
    j <= WRITES && Reached(call, p, 0, was) == Reached(call, p, j, was) && RunTo(p, j, was) == (ou, true)
  }

  lemma Begin(call: Call, p: Payload, was: OU)
    ensures Progress(call, p, was, 0, was)
  {
  }

  lemma Advance(call: Call, p: Payload, was: OU, j: nat, ou: OU, ou': OU)
    requires j < WRITES && Progress(call, p, was, j, ou)
    requires if Write(p, j).None? then ou' == ou
             else !Fails(call, Write(p, j).value, ou) && Do(Write(p, j).value, ou) == Some(ou')
    ensures Progress(call, p, was, j + 1, ou')
  {
    hide Reached, RunTo, Write, Do;
    ReachedStep(call, p, j, was);
    RunStep(p, j + 1, was);
  }

  /** The script ends where it is refused, or at its end. */
  lemma Halt(call: Call, p: Payload, was: OU, j: nat, ou: OU)
    requires Progress(call, p, was, j, ou)
    requires j < WRITES ==> Write(p, j).Some? && Fails(call, Write(p, j).value, ou)
    ensures j <= WRITES && Reached(call, p, 0, was) == j && RunTo(p, j, was) == (ou, true)
  {
    hide Reached, Write, Do, RunTo;
    ReachedStep(call, p, j, was);
  }

  /** What executing the script comes to: the object it leaves, and whether it succeeds.
      Every write and the last read have to find the object. */
  function Executes(call: Call, p: Payload, ou: OU): (OU, bool) {
    var j := Reached(call, p, 0, ou);
    var left := RunTo(p, j, ou).0;
    (left, j == WRITES && call.Finds(left) && !call.readFails)
  }

  /** Where the script stops for want of the object, when nothing else is refused. */
  function Stops(call: Call, p: Payload, ou: OU): (OU, bool) {
    if p.set_.Some? && !call.Finds(ou) then (ou, false)
    else if p.rename.Some? && !call.Finds(ou) then (Described(p, ou), false)
    else if p.move.Some? && !call.Finds(BeforeMove(p, ou)) then (Renamed(p, Described(p, ou)), false)
    else if p.move.Some? && BeforeMove(p, ou).protected then (BeforeMove(p, ou), false)
    else if p.protect.Some? && !call.Finds(Moved(p, ou)) then (Moved(p, ou), false)
    else (Restored(p, ou), call.Finds(Moved(p, ou)))
  }

  lemma ExecutesUnrolled(call: Call, p: Payload, ou: OU)
    requires call.Unrefused()
    ensures Executes(call, p, ou) == Stops(call, p, ou)
  {
    hide RunTo, Fold, Reached;
    RunUnrolled(p, ou);
    AllSteps(call, p, ou);
  }

  /** With an identity that stays and nothing refused, it is the run of the writes. */
  lemma StableRuns(call: Call, p: Payload, ou: OU)
    requires call.id.Stable? && call.Unrefused()
    ensures Executes(call, p, ou) == Run(p, ou)
  {
    hide RunTo;
    RunUnrolled(p, ou);
  }

  /** The stored object, written in place. */
  class Stored {
    var ou: OU

    constructor (ou: OU)
      ensures this.ou == ou
    {
      this.ou := ou;
    }

    /** One cmdlet: refused, or carried out on the object. */
    method Cmdlet(s: Step, call: Call) returns (err: Option<UpdateError>)
      modifies this
      ensures err.None? <==> !Fails(call, s, old(ou))
      ensures err == Some(NotFound) <==> !call.Finds(old(ou))
      ensures err.None? ==> Do(s, old(ou)) == Some(ou)
      ensures err.Some? ==> ou == old(ou) && err.value != BadName
    {
      if !call.Finds(ou) {
        return Some(NotFound);
      }
      if call.refuses(s) {
        return Some(CmdletFailed);
      }
      match s {
        case SetDescription(e) => ou := ou.(description := if e.Param? then e.value else "");
        case Rename(n) => ou := ou.(name := n);
        case Unprotect => ou := ou.(protected := false);
        case Move(t) =>
          if ou.protected {
            return Some(AccessDenied);
          }
          ou := ou.(container := t);
        case Protect(b) => ou := ou.(protected := b);
      }
      return None;
    }

    /** The guarded writes of the script, up to the first that is refused. */
    method Writes(p: Payload, call: Call) returns (err: Option<UpdateError>)
      modifies this
      ensures
        var j := Reached(call, p, 0, old(ou));
        (ou, true) == RunTo(p, j, old(ou)) && (err.None? <==> j == WRITES)
      ensures err.Some? ==> err.value != BadName
    {
      hide RunTo, Reached, Progress, Do, Fails;
      ghost var was := ou;
      err := None;
      Begin(call, p, was);
      ghost var before := ou;
      if p.set_.Some? {
        err := Cmdlet(SetDescription(p.set_.value), call);
        if err.Some? {
          Halt(call, p, was, 0, ou);
          return;
        }
      }
      Advance(call, p, was, 0, before, ou);
      before := ou;
      if p.rename.Some? {
        err := Cmdlet(Rename(p.rename.value), call);
        if err.Some? {
          Halt(call, p, was, 1, ou);
          return;
        }
      }
      Advance(call, p, was, 1, before, ou);
      before := ou;
      if p.move.Some? && p.unprotectBeforeMove {
        err := Cmdlet(Unprotect, call);
        if err.Some? {
          Halt(call, p, was, 2, ou);
          return;
        }
      }
      Advance(call, p, was, 2, before, ou);
      before := ou;
      if p.move.Some? {
        err := Cmdlet(Move(p.move.value), call);
        if err.Some? {
          Halt(call, p, was, 3, ou);
          return;
        }
      }
      Advance(call, p, was, 3, before, ou);
      before := ou;
      if p.protect.Some? {
        err := Cmdlet(Protect(p.protect.value), call);
        if err.Some? {
          Halt(call, p, was, 4, ou);
          return;
        }
      }
      Advance(call, p, was, 4, before, ou);
      Halt(call, p, was, WRITES, ou);
    }

    /** ou_update.ps1.  Whatever is refused, what came before it stays done; the read that
        ends the script may fail too. */
    method Script(p: Payload, call: Call) returns (r: Result<OU, UpdateError>)
      modifies this
      ensures
        var j := Reached(call, p, 0, old(ou));
        && (ou, true) == RunTo(p, j, old(ou))
        && (r.Ok? <==> j == WRITES && call.Finds(ou) && !call.readFails)
      ensures (ou, r.Ok?) == Executes(call, p, old(ou))
      ensures r.Ok? ==> r.value == ou
      ensures r.Err? ==> r.error != BadName
      ensures call.id.Stable? && call.Unrefused() ==> (ou, r.Ok?) == Run(p, old(ou))
    {
      hide RunTo, Run, Reached;
      if call.id.Stable? && call.Unrefused() {
        StableRuns(call, p, ou);
      }
      var err := Writes(p, call);
      if err.Some? {
        return Err(err.value);
      }
      if !call.Finds(ou) {
        return Err(NotFound);
      }
      return if call.readFails then Err(CmdletFailed) else Ok(ou);
    }
  }

  // ---------- The planner ----------

  /** The writes of `p` never move a protected object and take `current` to an object that
      meets the spec, differing only where the spec asks for it. */
  predicate Realises(key: KeyOf, current: OU, spec: OUSpec, p: Payload) {
    var (ou, done) := Run(p, current);
    && done && Meets(key, ou, spec) && KeepsRest(current, ou, spec)
    && ou.container == (if SameContainer(key, spec.container, current.container) then current.container
                        else spec.container)
  }

  /** A rename or a move only when the name or the container differs, the protection
      lifted only to move a protected object and written only when it has to change, the
      description written whenever the spec gives one; so the payload is empty exactly
      when the object meets a spec that gives none. */
  predicate Minimal(key: KeyOf, current: OU, spec: OUSpec, p: Payload) {
    && (p.rename.Some? <==> current.name != spec.name)
    && (p.move.Some? <==> !SameContainer(key, spec.container, current.container))
    && (p.unprotectBeforeMove <==> p.move.Some? && current.protected)
    && (p.set_.Some? <==> spec.description.Some?)
    && (p.protect.Some? ==> p.unprotectBeforeMove || p.protect.value != current.protected)
    && (p.Empty() <==> Meets(key, current, spec) && spec.description.None?)
  }

  predicate Planned(key: KeyOf, current: OU, spec: OUSpec, p: Payload) {
    Realises(key, current, spec, p) && Minimal(key, current, spec, p)
  }

  method Plan(key: KeyOf, current: OU, spec: OUSpec) returns (r: Result<Payload, UpdateError>)
    ensures r.Err? <==> key(spec.container).None? || key(current.container).None?
    ensures r.Err? ==> r.error == BadName
    ensures r.Ok? ==> Planned(key, current, spec, r.value)
  {
    hide RunTo;
    var payload := Payload(None, None, None, false, None);
    if spec.description.Some? {
      if spec.description.value == "" {
        payload := payload.(set_ := Some(Clear));
      } else {
        payload := payload.(set_ := Some(Param(spec.description.value)));
      }
    }
    if spec.name != current.name {
      payload := payload.(rename := Some(spec.name));
    }
    if key(spec.container).None? || key(current.container).None? {
      return Err(BadName);
    }
    var sameContainer := key(spec.container) == key(current.container);
    if !sameContainer {
      payload := payload.(move := Some(spec.container));
    }
    var finalProtected := current.protected;
    if spec.protected.Some? {
      finalProtected := spec.protected.value;
    }
    var protectedAfterMove := current.protected;
    if !sameContainer && current.protected {
      payload := payload.(unprotectBeforeMove := true);
      protectedAfterMove := false;
    }
    if finalProtected != protectedAfterMove {
      payload := payload.(protect := Some(finalProtected));
    }
    RunUnrolled(payload, current);
    return Ok(payload);
  }

  // ---------- Whether the plan can be executed ----------

  /** A planned payload that nothing else refuses is executed to its end exactly if it is
      given a GUID, or the distinguished name is not to change: after its own rename or
      move a name leads nowhere, so the writes still to come and the last read fail. */
  lemma PlanExecutesIff(call: Call, current: OU, spec: OUSpec, p: Payload)
    requires Planned(call.key, current, spec, p) && call.Finds(current) && call.Unrefused()
    ensures Executes(call, p, current).1 <==> call.id.Stable? || SameDN(call.key, current, spec)
    ensures Executes(call, p, current).1 ==> Executes(call, p, current) == Run(p, current)
  {
    hide RunTo, Fold;
    RunUnrolled(p, current);
    if call.id.Stable? {
      StableRuns(call, p, current);
    } else if SameDN(call.key, current, spec) {
      KeptName(call, current, spec, p);
    } else {
      ByNameLeaves(call, current, spec, p);
    }
  }

  lemma KeptName(call: Call, current: OU, spec: OUSpec, p: Payload)
    requires Planned(call.key, current, spec, p) && call.Finds(current) && call.Unrefused()
    requires SameDN(call.key, current, spec)
    ensures Reached(call, p, 0, current) == WRITES && Executes(call, p, current) == Run(p, current)
  {
    hide RunTo, Fold, Minimal, KeepsRest;
    RunUnrolled(p, current);
    assert p.move.None? && (p.rename.Some? ==> p.rename.value == spec.name) by {
      WritesAre(call.key, current, spec, p);
    }
  }

  lemma WritesAre(key: KeyOf, current: OU, spec: OUSpec, p: Payload)
    requires Planned(key, current, spec, p)
    ensures p.rename == if current.name != spec.name then Some(spec.name) else None
    ensures p.move == if SameContainer(key, spec.container, current.container) then None else Some(spec.container)
  {
    hide RunTo, KeepsRest;
    RunUnrolled(p, current);
  }

  /** What is left when the distinguished name was to change: after a rename nothing more
      is done; after a move alone only the protection is not written. */
  lemma ByNameLeaves(call: Call, current: OU, spec: OUSpec, p: Payload)
    requires Planned(call.key, current, spec, p) && call.Finds(current) && call.Unrefused()
    requires call.id.ByName? && !SameDN(call.key, current, spec)
    ensures Executes(call, p, current)
         == (if Fold(current.name) != Fold(spec.name) then Renamed(p, Described(p, current))
             else Moved(p, current), false)
    ensures !call.Finds(Executes(call, p, current).0)
  {
    hide RunTo, Fold, Realises, Minimal, Reached;
    WritesAre(call.key, current, spec, p);
    Unprotects(call.key, current, spec, p);
    RunUnrolled(p, current);
    AllSteps(call, p, current);
  }

  lemma Unprotects(key: KeyOf, current: OU, spec: OUSpec, p: Payload)
    requires Planned(key, current, spec, p)
    ensures p.move.Some? ==> !BeforeMove(p, current).protected
    ensures p.unprotectBeforeMove <==> p.move.Some? && current.protected
  {
    hide RunTo;
    RunUnrolled(p, current);
  }

  /** In particular: an update by name that only moves an object leaves it unprotected,
      whatever it was and whatever was asked for. */
  lemma MovedByNameIsExposed(call: Call, current: OU, spec: OUSpec, p: Payload)
    requires Planned(call.key, current, spec, p) && call.Finds(current) && call.Unrefused() && call.id.ByName?
    requires current.name == spec.name && !SameContainer(call.key, spec.container, current.container)
    ensures !Executes(call, p, current).0.protected && !Executes(call, p, current).1
    ensures Executes(call, p, current).0.container == spec.container
  {
    hide RunTo, Fold, Realises, Minimal, Executes;
    ByNameLeaves(call, current, spec, p);
    WritesAre(call.key, current, spec, p);
    Unprotects(call.key, current, spec, p);
  }

  /** What a whole Update comes to, given its plan: nothing if the object is not found,
      nothing to do if the plan is empty. */
  function UpdatedBy(call: Call, p: Payload, ou: OU): (OU, bool) {
    if !call.Finds(ou) then (ou, false) else if p.Empty() then (ou, true) else Executes(call, p, ou)
  }

  /** Update: find the object, plan against what is there, and execute unless there is
      nothing to do.  It fails with nothing changed when the object is not found or a name
      does not parse; otherwise exactly the writes before the refused one are made. */
  method Update(call: Call, stored: Stored, spec: OUSpec) returns (r: Result<OU, UpdateError>, ghost p: Payload)
    modifies stored
    ensures !call.Finds(old(stored.ou)) ==> r == Err(NotFound) && stored.ou == old(stored.ou)
    ensures call.Finds(old(stored.ou)) ==>
      (r == Err(BadName) <==> call.key(spec.container).None? || call.key(old(stored.ou).container).None?)
    ensures r == Err(BadName) ==> stored.ou == old(stored.ou)
    ensures call.Finds(old(stored.ou)) && r != Err(BadName) ==>
      && Planned(call.key, old(stored.ou), spec, p)
      && (stored.ou, true) == RunTo(p, Reached(call, p, 0, old(stored.ou)), old(stored.ou))
      && (stored.ou, r.Ok?) == UpdatedBy(call, p, old(stored.ou))
    ensures r.Ok? ==>
      r.value == stored.ou && Meets(call.key, stored.ou, spec) && KeepsRest(old(stored.ou), stored.ou, spec)
    ensures call.Finds(old(stored.ou)) && call.Unrefused() && r != Err(BadName) ==>
      (r.Ok? <==> call.id.Stable? || SameDN(call.key, old(stored.ou), spec))
    ensures r.Ok? && Meets(call.key, old(stored.ou), spec) ==> stored.ou == old(stored.ou)
  {
    hide RunTo, Fold, Resolves;
    var current := stored.ou;
    if !call.Finds(current) {
      p := Payload(None, None, None, false, None);
      return Err(NotFound), p;
    }
    var plan := Plan(call.key, current, spec);
    if plan.Err? {
      p := Payload(None, None, None, false, None);
      return Err(plan.error), p;
    }
    p := plan.value;
    RunUnrolled(p, current);
    if call.Unrefused() {
      PlanExecutesIff(call, current, spec, p);
    }
    if plan.value.Empty() {
      return Ok(current), p;
    }
    r := stored.Script(plan.value, call);
  }

  /** Realising a spec twice leaves what realising it once leaves. */
  lemma Idempotent(key: KeyOf, current: OU, spec: OUSpec, p: Payload, p': Payload)
    requires Realises(key, current, spec, p) && Realises(key, Run(p, current).0, spec, p')
    ensures Run(p', Run(p, current).0).0 == Run(p, current).0
  {
  }

  /** Updating twice leaves what updating once leaves, whatever the identity: if the first
      changed the name it was given, the second does not find the object. */
  lemma UpdateIdempotent(call: Call, current: OU, spec: OUSpec, p: Payload, p': Payload)
    requires Planned(call.key, current, spec, p) && call.Finds(current) && call.Unrefused()
    requires Planned(call.key, UpdatedBy(call, p, current).0, spec, p')
    ensures UpdatedBy(call, p', UpdatedBy(call, p, current).0).0 == UpdatedBy(call, p, current).0
  {
    hide RunTo, Fold, Executes;
    var once := UpdatedBy(call, p, current).0;
    PlanExecutesIff(call, current, spec, p);
    RunUnrolled(p, current);
    if call.id.ByName? && !SameDN(call.key, current, spec) {
      ByNameLeaves(call, current, spec, p);
    } else if call.Finds(once) {
      PlanExecutesIff(call, once, spec, p');
      RunUnrolled(p', once);
    }
  }

  // ---------- An update cut short ----------

  /** Stopped after `j` guarded writes, the execution leaves an object that was protected,
      and is to stay so, unprotected exactly between lifting the flag and restoring it. */
  lemma ExposedWindow(key: KeyOf, current: OU, spec: OUSpec, p: Payload, j: nat)
    requires Planned(key, current, spec, p) && j <= WRITES
    requires current.protected && Run(p, current).0.protected
    ensures !RunTo(p, j, current).0.protected <==> p.unprotectBeforeMove && 3 <= j < WRITES
  {
    hide RunTo;
    RunUnrolled(p, current);
  }

  /** Updating again after a failure, with nothing refused this time, succeeds exactly for
      a GUID or a distinguished name that was not to change.  It then meets the spec, and
      keeps what the spec leaves alone exactly when the first update was not cut short
      between lifting and restoring a protection the spec does not mention: then the object
      stays unprotected. */
  lemma RecoveryIff(call: Call, current: OU, spec: OUSpec, p: Payload, j: nat, p': Payload)
    requires Planned(call.key, current, spec, p) && call.Finds(current) && call.Unrefused() && j <= WRITES
    requires Planned(call.key, RunTo(p, j, current).0, spec, p')
    ensures
      var (again, ok) := UpdatedBy(call, p', RunTo(p, j, current).0);
      && (ok <==> call.id.Stable? || SameDN(call.key, current, spec))
      && (ok ==> Meets(call.key, again, spec))
      && (ok ==> (KeepsRest(current, again, spec)
                  <==> !(spec.protected.None? && current.protected && 3 <= j < WRITES
                         && !SameContainer(call.key, spec.container, current.container))))
  {
    hide RunTo, Fold, Executes;
    var cut := RunTo(p, j, current).0;
    RunUnrolled(p, current);
    WritesAre(call.key, current, spec, p);
    if call.Finds(cut) {
      PlanExecutesIff(call, cut, spec, p');
      RunUnrolled(p', cut);
    }
  }

  // ---------- A script issued again ----------

  /** A script that got as far as `j` writes and is issued again, now with nothing refused,
      leaves what it would have left, and reports the same, except for one case: everything
      had been done, and what it did was move an unprotected object and protect it.  Then
      the object is as wanted but the move is refused. */
  lemma ReissueIff(call: Call, p: Payload, ou: OU, j: nat)
    requires call.Finds(ou) && call.Unrefused() && Run(p, ou).1 && (p.unprotectBeforeMove ==> p.move.Some?)
    requires j <= Reached(call, p, 0, ou)
    ensures Executes(call, p, RunTo(p, j, ou).0).0 == Executes(call, p, ou).0
    ensures Executes(call, p, RunTo(p, j, ou).0) == Executes(call, p, ou)
       <==> !(j == WRITES && p.move.Some? && !p.unprotectBeforeMove && p.protect == Some(true)
              && call.Finds(Restored(p, ou)))
  {
    hide RunTo, Fold, Reached, Executes, Stops, Resolves;
    var cut := RunTo(p, j, ou).0;
    RunUnrolled(p, ou);
    ExecutesUnrolled(call, p, ou);
    ExecutesUnrolled(call, p, cut);
    StopsAt(call, p, ou, j);
    if j <= 2 {
      StopsEarly(call, p, ou, cut);
    } else if j == 3 {
      StopsBeforeMove(call, p, ou);
    } else {
      StopsLate(call, p, ou, cut);
    }
  }

  lemma SameFound(call: Call, a: OU, b: OU)
    requires a.name == b.name && a.container == b.container
    ensures call.Finds(a) == call.Finds(b)
  {
  }

  /** Issued again before anything but description and name was written. */
  lemma StopsEarly(call: Call, p: Payload, ou: OU, cut: OU)
    requires call.Finds(ou)
    requires cut == ou || cut == Described(p, ou) || cut == Renamed(p, Described(p, ou))
    ensures Stops(call, p, cut) == Stops(call, p, ou)
  {
    hide Resolves;
    SameFound(call, Described(p, ou), ou);
    SameFound(call, Renamed(p, Described(p, ou)), BeforeMove(p, ou));
  }

  /** Issued again just before the move. */
  lemma StopsBeforeMove(call: Call, p: Payload, ou: OU)
    requires call.Finds(ou)
    requires p.move.Some? && p.unprotectBeforeMove ==> call.Finds(BeforeMove(p, ou))
    ensures Stops(call, p, BeforeMove(p, ou)) == Stops(call, p, ou)
  {
    hide Resolves;
    SameFound(call, Renamed(p, Described(p, ou)), BeforeMove(p, ou));
  }

  /** Issued again after the move, or after everything. */
  lemma StopsLate(call: Call, p: Payload, ou: OU, cut: OU)
    requires call.Finds(ou) && (p.move.Some? ==> call.Finds(BeforeMove(p, ou)) && !BeforeMove(p, ou).protected)
    requires p.unprotectBeforeMove ==> p.move.Some?
    requires cut == Moved(p, ou) || (cut == Restored(p, ou) && (p.protect.Some? ==> call.Finds(Moved(p, ou))))
    ensures Stops(call, p, cut).0 == Stops(call, p, ou).0
    ensures Stops(call, p, cut) == Stops(call, p, ou)
       <==> !(cut == Restored(p, ou) && p.move.Some? && !p.unprotectBeforeMove && p.protect == Some(true)
              && call.Finds(Restored(p, ou)))
  {
    hide Resolves;
    SameFound(call, Moved(p, ou), Restored(p, ou));
    SameFound(call, BeforeMove(p, cut), Renamed(p, Described(p, cut)));
    SameFound(call, BeforeMove(p, cut), cut);
    SameFound(call, Moved(p, cut), cut);
  }

  /** The writes up to where the script stops are made on an object still found. */
  lemma StopsAt(call: Call, p: Payload, ou: OU, j: nat)
    requires call.Finds(ou) && call.Unrefused() && Run(p, ou).1 && j <= Reached(call, p, 0, ou)
    ensures j >= 3 && p.move.Some? && p.unprotectBeforeMove ==> call.Finds(BeforeMove(p, ou))
    ensures j >= 4 && p.move.Some? ==> call.Finds(BeforeMove(p, ou))
    ensures j >= 5 && p.protect.Some? ==> call.Finds(Moved(p, ou))
  {
    hide RunTo, Fold, Reached, SameContainer;
    RunUnrolled(p, ou);
    AllSteps(call, p, ou);
  }

  /** The same for what the planner sends, in terms of the call. */
  lemma ReissueOfPlanIff(call: Call, current: OU, spec: OUSpec, p: Payload, j: nat)
    requires Planned(call.key, current, spec, p) && call.Finds(current) && call.Unrefused()
    requires j <= Reached(call, p, 0, current)
    ensures Executes(call, p, RunTo(p, j, current).0) == Executes(call, p, current)
       <==> !(call.id.Stable? && j == WRITES && !SameContainer(call.key, spec.container, current.container)
              && !current.protected && spec.protected == Some(true))
  {
    hide RunTo, Fold, Executes, Reached;
    RunUnrolled(p, current);
    ReissueIff(call, p, current, j);
    if call.id.ByName? && !SameDN(call.key, current, spec) && p.move.Some? && p.protect.Some? {
      MovedNotProtected(call, current, spec, p);
    }
  }

  lemma MovedNotProtected(call: Call, current: OU, spec: OUSpec, p: Payload)
    requires Planned(call.key, current, spec, p) && call.Finds(current) && call.Unrefused()
    requires call.id.ByName? && !SameDN(call.key, current, spec) && p.move.Some? && p.protect.Some?
    ensures Reached(call, p, 0, current) < WRITES
  {
    hide RunTo, Fold, Realises, Minimal, Reached;
    WritesAre(call.key, current, spec, p);
    RunUnrolled(p, current);
    AllSteps(call, p, current);
  }

  // ---------- Concrete inputs ----------

  /** Every container name is its own key. */
  function Itself(): KeyOf {
    d => Some(d)
  }

  /** An unprotected unit is moved with protection asked for; issued again after its last
      read failed, the script is refused although all is done. */
  lemma ReissueRefused()
    ensures
      var ou := OU("Sales", "DC=a", "", false);
      var p := Payload(None, None, Some("DC=b"), false, Some(true));
      && Run(p, ou) == (OU("Sales", "DC=b", "", true), true)
      && Run(p, Run(p, ou).0) == (OU("Sales", "DC=b", "", true), false)
  {
    var ou := OU("Sales", "DC=a", "", false);
    var p := Payload(None, None, Some("DC=b"), false, Some(true));
    RunUnrolled(p, ou);
    RunUnrolled(p, OU("Sales", "DC=b", "", true));
  }

  /** The move of a protected unit is refused after its flag is lifted. */
  lemma ExposedAtMove()
    ensures
      var ou := OU("Sales", "DC=a", "", true);
      var p := Payload(None, None, Some("DC=b"), true, Some(true));
      && Run(p, ou) == (OU("Sales", "DC=b", "", true), true)
      && RunTo(p, 3, ou) == (OU("Sales", "DC=a", "", false), true)
  {
    RunUnrolled(Payload(None, None, Some("DC=b"), true, Some(true)), OU("Sales", "DC=a", "", true));
  }

  /** The move of a protected unit, called for by its name: it ends moved, unprotected, and
      reported as a failure, with nothing refused but what the script does to itself. */
  lemma ExposedByName()
    ensures
      var ou := OU("Sales", "DC=a", "", true);
      var p := Payload(None, None, Some("DC=b"), true, Some(true));
      var call := Call(Itself(), ByName("Sales", "DC=a"), _ => false, false);
      && Planned(Itself(), ou, OUSpec("Sales", "DC=b", None, None), p)
      && Executes(call, p, ou) == (OU("Sales", "DC=b", "", false), false)
      && !call.Finds(Executes(call, p, ou).0)
  {
    hide RunTo, Fold, Executes;
    var ou := OU("Sales", "DC=a", "", true);
    var spec := OUSpec("Sales", "DC=b", None, None);
    var p := Payload(None, None, Some("DC=b"), true, Some(true));
    RunUnrolled(p, ou);
    assert ['D', 'C', '=', 'a'][3] != ['D', 'C', '=', 'b'][3];
    ByNameLeaves(Call(Itself(), ByName("Sales", "DC=a"), _ => false, false), ou, spec, p);
  }
}
