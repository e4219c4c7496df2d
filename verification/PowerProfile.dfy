/**
  Profile switching of hidl/power/power-8084.c on top of the hint list, with the video and display hints as the
  other callers of perform and undo.
*/
module PowerProfile {
  import opened HintStack
  import opened HintList

  const PROFILE_POWER_SAVE := 0
  const PROFILE_BALANCED := 1
  const PROFILE_HIGH_PERFORMANCE := 2
  const PROFILE_BIAS_POWER := 3
  const PROFILE_BIAS_PERFORMANCE := 4

  const DISPLAY_STATE_HINT_ID := 0x0C00
  const DISPLAY_STATE_HINT_ID_2 := 0x0D00
  const DEFAULT_PROFILE_HINT_ID := 0xFF00

  datatype Hal = Hal(profile: int, perf: Perf)

  /** The answer of `perf_lock_acq` and the outcome of the two allocations behind it. */
  datatype Answer = Answer(lock: int, hintMalloc: bool, nodeMalloc: bool)

  /** What `get_scaling_governor` and `is_interactive_governor` say. */
  datatype Governor = Unreadable | Interactive | OtherGovernor

  datatype HalOp =
    | SetProfile(profile: int, answer: Answer)
    | Video(state: int, id: nat, governor: Governor, answer: Answer)
    | Display(on: bool, governor: Governor, answer: Answer)

  function PerformWith(lib: Library, s: Perf, id: nat, a: Answer): (Perf, int) {
    Perform(lib, s, id, a.lock, a.hintMalloc && a.nodeMalloc)
  }

  predicate HasResources(profile: int) {
    profile == PROFILE_POWER_SAVE || profile == PROFILE_HIGH_PERFORMANCE
    || profile == PROFILE_BIAS_POWER || profile == PROFILE_BIAS_PERFORMANCE
  }

  function Switch(lib: Library, h: Hal, profile: int, a: Answer): Hal {
    if profile == h.profile then
      h
    else
      var perf := if h.profile != PROFILE_BALANCED then Undo(lib, h.perf, DEFAULT_PROFILE_HINT_ID) else h.perf;
      if HasResources(profile) then
        var (perf', rc) := PerformWith(lib, perf, DEFAULT_PROFILE_HINT_ID, a);
        Hal(if rc == 0 then profile else PROFILE_BALANCED, perf')
      else
        Hal(PROFILE_BALANCED, perf)
  }

  function HalStep(lib: Library, h: Hal, op: HalOp): Hal {
    match op
    case SetProfile(profile, a) =>
      Switch(lib, h, profile, a)
    case Video(state, id, governor, a) =>
      if h.profile == PROFILE_POWER_SAVE || governor != Interactive then h
      else if state == 1 then h.(perf := PerformWith(lib, h.perf, id, a).0)
      else if state == 0 then h.(perf := Undo(lib, h.perf, id))
      else h
    case Display(on, governor, a) =>
      if governor == Unreadable then h
      else if on then h.(perf := DisplayOn(lib, h.perf, governor, a))
      else h.(perf := DisplayOff(lib, h.perf, governor, a))
  }

  function DisplayOff(lib: Library, s: Perf, governor: Governor, a: Answer): Perf {
    var perf := Undo(lib, s, DISPLAY_STATE_HINT_ID_2);
    if governor == Interactive then PerformWith(lib, perf, DISPLAY_STATE_HINT_ID, a).0 else perf
  }

  function DisplayOn(lib: Library, s: Perf, governor: Governor, a: Answer): Perf {
    var perf := PerformWith(lib, s, DISPLAY_STATE_HINT_ID_2, a).0;
    if governor == Interactive then Undo(lib, perf, DISPLAY_STATE_HINT_ID) else perf
  }

  const BOOT := Hal(PROFILE_BALANCED, EMPTY)

  /** The newest operation is the last one. */
  function HalRun(lib: Library, ops: seq<HalOp>): Hal {
    if ops == [] then BOOT else HalStep(lib, HalRun(lib, ops[..|ops| - 1]), ops[|ops| - 1])
  }

  // ----- The profile entry -----

  function ProfileEntries(h: Hal): nat {
    |StackOf(h.perf.entries, DEFAULT_PROFILE_HINT_ID)|
  }

  /** One entry under the profile id when a profile other than BALANCED is in force, none otherwise. */
  predicate ProfileInv(h: Hal) {
    ProfileEntries(h) == if h.profile == PROFILE_BALANCED then 0 else 1
  }

  /** Video metadata can name any hint id; this says it does not name the profile's. */
  predicate AvoidsProfileId(ops: seq<HalOp>) {
    forall i :: 0 <= i < |ops| ==> ops[i].Video? ==> ops[i].id != DEFAULT_PROFILE_HINT_ID
  }

  lemma PerformOnStack(lib: Library, s: Perf, id: nat, a: Answer, other: nat)
    ensures var (s', rc) := PerformWith(lib, s, id, a);
            && (lib.acq && rc == 0 && id == other ==>
                  StackOf(s'.entries, other) == [a.lock] + StackOf(s.entries, other))
            && (!lib.acq || rc != 0 || id != other ==> StackOf(s'.entries, other) == StackOf(s.entries, other))
  {
  }

  lemma UndoOnStack(lib: Library, s: Perf, id: nat, other: nat)
    ensures StackOf(Undo(lib, s, id).entries, other)
         == StackStep(lib, StackOf(s.entries, other), other, UndoOp(id))
  {
    StepOnStack(lib, s, other, UndoOp(id));
  }

  // What each operation does to the stack of each id: the profile's is 0xFF00, the display's 0x0C00 and 0x0D00.

  /** A stack behind an accepted request for a lock, and behind an undo. */
  function Pushed(lib: Library, stack: seq<int>, a: Answer): seq<int> {
    if lib.acq && a.lock != -1 && a.hintMalloc && a.nodeMalloc then [a.lock] + stack else stack
  }

  function Popped(lib: Library, stack: seq<int>): seq<int> {
    if lib.rel && stack != [] then stack[1..] else stack
  }

  /**
    A switch undoes the profile in force, if it is not BALANCED (1), and takes the lock of the new one.  The profile is
    then the requested one if that is POWER_SAVE (0), HIGH_PERFORMANCE (2), BIAS_POWER (3) or BIAS_PERFORMANCE (4) and
    was granted, else BALANCED; a request for the profile in force changes nothing.
  */
  lemma SwitchMoves(lib: Library, h: Hal, profile: int, a: Answer, id: nat)
    ensures var h' := Switch(lib, h, profile, a);
            var stack := StackOf(h.perf.entries, id);
            var undone := if h.profile != 1 && id == 0xFF00 then Popped(lib, stack) else stack;
            var known := profile == 0 || 2 <= profile <= 4;
            var granted := !lib.acq || (a.lock != -1 && a.hintMalloc && a.nodeMalloc);
            if profile == h.profile then h' == h
            else
              && h'.profile == (if known && granted then profile else 1)
              && StackOf(h'.perf.entries, id) == if known && id == 0xFF00 then Pushed(lib, undone, a) else undone
  {
    UndoOnStack(lib, h.perf, DEFAULT_PROFILE_HINT_ID, id);
    var perf := if h.profile != PROFILE_BALANCED then Undo(lib, h.perf, DEFAULT_PROFILE_HINT_ID) else h.perf;
    PerformOnStack(lib, perf, DEFAULT_PROFILE_HINT_ID, a, id);
    PerformResult(lib, perf, DEFAULT_PROFILE_HINT_ID, a.lock, a.hintMalloc && a.nodeMalloc);
    hide StackOf, Undo, Perform;
  }

  /**
    A video hint with the interactive governor, unless the profile is POWER_SAVE: state 1 takes a lock under its id,
    state 0 gives the newest one back.
  */
  lemma VideoMoves(lib: Library, h: Hal, op: HalOp, id: nat)
    requires op.Video?
    ensures var h', stack := HalStep(lib, h, op), StackOf(h.perf.entries, id);
            var seen := h.profile != 0 && op.governor == Interactive && op.id == id;
            && h'.profile == h.profile
            && StackOf(h'.perf.entries, id) == if seen && op.state == 1 then Pushed(lib, stack, op.answer)
                                               else if seen && op.state == 0 then Popped(lib, stack) else stack
  {
    PerformOnStack(lib, h.perf, op.id, op.answer, id);
    UndoOnStack(lib, h.perf, op.id, id);
    PerformResult(lib, h.perf, op.id, op.answer.lock, op.answer.hintMalloc && op.answer.nodeMalloc);
    hide StackOf, Undo, Perform;
  }

  /**
    A display change with a readable governor: on takes a lock under 0x0D00, off gives one back; with the interactive
    governor, off also takes one under 0x0C00, and on gives one back.
  */
  lemma DisplayMoves(lib: Library, h: Hal, op: HalOp, id: nat)
    requires op.Display?
    ensures var h', stack := HalStep(lib, h, op), StackOf(h.perf.entries, id);
            var takes := (op.on && id == 0x0D00) || (!op.on && id == 0x0C00 && op.governor == Interactive);
            var gives := (!op.on && id == 0x0D00) || (op.on && id == 0x0C00 && op.governor == Interactive);
            && h'.profile == h.profile
            && StackOf(h'.perf.entries, id) == if op.governor == Unreadable then stack
                                               else if takes then Pushed(lib, stack, op.answer)
                                               else if gives then Popped(lib, stack) else stack
  {
    var off, on := DISPLAY_STATE_HINT_ID, DISPLAY_STATE_HINT_ID_2;
    DisplayPartMoves(lib, h.perf, on, op.answer, id);
    DisplayPartMoves(lib, PerformWith(lib, h.perf, on, op.answer).0, off, op.answer, id);
    DisplayPartMoves(lib, Undo(lib, h.perf, on), off, op.answer, id);
    hide StackOf, Undo, PerformWith;
  }

  lemma DisplayPartMoves(lib: Library, s: Perf, hint: nat, a: Answer, id: nat)
    ensures var stack := StackOf(s.entries, id);
            && StackOf(PerformWith(lib, s, hint, a).0.entries, id)
               == (if hint == id then Pushed(lib, stack, a) else stack)
            && StackOf(Undo(lib, s, hint).entries, id) == if hint == id then Popped(lib, stack) else stack
  {
    PerformOnStack(lib, s, hint, a, id);
    UndoOnStack(lib, s, hint, id);
    PerformResult(lib, s, hint, a.lock, a.hintMalloc && a.nodeMalloc);
    hide StackOf, Undo, Perform;
  }

  lemma SwitchKeepsProfileInv(lib: Library, h: Hal, profile: int, a: Answer)
    requires lib.acq && lib.rel && ProfileInv(h)
    ensures ProfileInv(Switch(lib, h, profile, a))
  {
    hide StackOf, Undo, Perform;
    UndoOnStack(lib, h.perf, DEFAULT_PROFILE_HINT_ID, DEFAULT_PROFILE_HINT_ID);
    var perf := if h.profile != PROFILE_BALANCED then Undo(lib, h.perf, DEFAULT_PROFILE_HINT_ID) else h.perf;
    PerformOnStack(lib, perf, DEFAULT_PROFILE_HINT_ID, a, DEFAULT_PROFILE_HINT_ID);
  }

  /** The other hints leave the profile's stack alone. */
  lemma OthersKeepProfileEntries(lib: Library, h: Hal, op: HalOp)
    requires !op.SetProfile? && (op.Video? ==> op.id != DEFAULT_PROFILE_HINT_ID)
    ensures ProfileEntries(HalStep(lib, h, op)) == ProfileEntries(h)
    ensures HalStep(lib, h, op).profile == h.profile
  {
    hide StackOf, Undo, Perform;
    var pid := DEFAULT_PROFILE_HINT_ID;
    if op.Video? {
      PerformOnStack(lib, h.perf, op.id, op.answer, pid);
      UndoOnStack(lib, h.perf, op.id, pid);
    } else {
      UndoOnStack(lib, h.perf, DISPLAY_STATE_HINT_ID_2, pid);
      PerformOnStack(lib, Undo(lib, h.perf, DISPLAY_STATE_HINT_ID_2), DISPLAY_STATE_HINT_ID, op.answer, pid);
      PerformOnStack(lib, h.perf, DISPLAY_STATE_HINT_ID_2, op.answer, pid);
      UndoOnStack(lib, PerformWith(lib, h.perf, DISPLAY_STATE_HINT_ID_2, op.answer).0, DISPLAY_STATE_HINT_ID, pid);
    }
  }

  lemma {:induction false} RunKeepsProfileInv(lib: Library, ops: seq<HalOp>)
    requires lib.acq && lib.rel && AvoidsProfileId(ops)
    ensures ProfileInv(HalRun(lib, ops))
  {
    if ops != [] {
      var before, op := ops[..|ops| - 1], ops[|ops| - 1];
      RunKeepsProfileInv(lib, before);
      if op.SetProfile? {
        SwitchKeepsProfileInv(lib, HalRun(lib, before), op.profile, op.answer);
      } else {
        assert op.Video? ==> op.id != DEFAULT_PROFILE_HINT_ID;
        OthersKeepProfileEntries(lib, HalRun(lib, before), op);
      }
    }
  }

  lemma RunOfTwo(lib: Library, op1: HalOp, op2: HalOp)
    ensures HalRun(lib, [op1]) == HalStep(lib, BOOT, op1)
    ensures HalRun(lib, [op1, op2]) == HalStep(lib, HalStep(lib, BOOT, op1), op2)
  {
  }

  /** The shortest runs that go wrong without the library. */
  lemma WithoutLibraryProfileInvFails(lib: Library)
    requires !lib.acq || !lib.rel
    ensures exists ops :: AvoidsProfileId(ops) && !ProfileInv(HalRun(lib, ops))
  {
    var save := SetProfile(PROFILE_POWER_SAVE, Answer(7, true, true));
    var balanced := SetProfile(PROFILE_BALANCED, Answer(7, true, true));
    RunOfTwo(lib, save, balanced);
    assert AvoidsProfileId([save]) && AvoidsProfileId([save, balanced]);
    assert [Hint(DEFAULT_PROFILE_HINT_ID, 7)] + [] == [Hint(DEFAULT_PROFILE_HINT_ID, 7)];
    assert !ProfileInv(HalRun(lib, if lib.acq then [save, balanced] else [save]));
  }

  /**
    The profile entry is right after every run, failed and unknown requests included, if and only if both entry
    points of the library were found.
  */
  lemma ProfileEntryLaw(lib: Library)
    ensures (forall ops :: AvoidsProfileId(ops) ==> ProfileInv(HalRun(lib, ops))) <==> lib.acq && lib.rel
  {
    if lib.acq && lib.rel {
      forall ops | AvoidsProfileId(ops) ensures ProfileInv(HalRun(lib, ops)) {
        RunKeepsProfileInv(lib, ops);
      }
    } else {
      WithoutLibraryProfileInvFails(lib);
    }
  }

  /** What a video hint must do to disturb the list: be looked at, and take a lock or release the profile's. */
  predicate Disturbs(h: Hal, op: HalOp)
    requires op.Video?
  {
    && h.profile != PROFILE_POWER_SAVE && op.governor == Interactive
    && ((op.state == 1 && op.answer.lock != -1 && op.answer.hintMalloc && op.answer.nodeMalloc)
        || (op.state == 0 && h.profile != PROFILE_BALANCED))
  }

  /** A video hint that names the profile id keeps the profile entry right if and only if it disturbs nothing. */
  lemma VideoOnProfileId(lib: Library, h: Hal, op: HalOp)
    requires lib.acq && lib.rel && ProfileInv(h) && op.Video? && op.id == DEFAULT_PROFILE_HINT_ID
    ensures ProfileInv(HalStep(lib, h, op)) <==> !Disturbs(h, op)
  {
    hide StackOf, Undo;
    PerformOnStack(lib, h.perf, op.id, op.answer, op.id);
    UndoOnStack(lib, h.perf, op.id, op.id);
  }

  /** The shortest run on which one does. */
  lemma VideoOnProfileIdBreaksInv(lib: Library)
    requires lib.acq
    ensures var ops := [Video(1, DEFAULT_PROFILE_HINT_ID, Interactive, Answer(7, true, true))];
            !ProfileInv(HalRun(lib, ops))
  {
  }

  /** The step takes a lock under the profile id, or releases the profile's, behind the back of the profile. */
  predicate Interferes(h: Hal, op: HalOp) {
    op.Video? && op.id == DEFAULT_PROFILE_HINT_ID && Disturbs(h, op)
  }

  predicate NeverInterferes(lib: Library, ops: seq<HalOp>)
  {
    ops == [] || (NeverInterferes(lib, ops[..|ops| - 1]) && !Interferes(HalRun(lib, ops[..|ops| - 1]), ops[|ops| - 1]))
  }

  /** The profile entry is right at every moment of the run. */
  ghost predicate RightSoFar(lib: Library, ops: seq<HalOp>) {
    forall n :: 0 <= n <= |ops| ==> ProfileInv(HalRun(lib, ops[..n]))
  }

  lemma StepKeepsProfileInv(lib: Library, h: Hal, op: HalOp)
    requires lib.acq && lib.rel && ProfileInv(h)
    ensures ProfileInv(HalStep(lib, h, op)) <==> !Interferes(h, op)
  {
    if op.SetProfile? {
      SwitchKeepsProfileInv(lib, h, op.profile, op.answer);
    } else if op.Video? && op.id == DEFAULT_PROFILE_HINT_ID {
      VideoOnProfileId(lib, h, op);
    } else {
      OthersKeepProfileEntries(lib, h, op);
    }
  }

  lemma RightSoFarUnfolds(lib: Library, ops: seq<HalOp>)
    requires ops != []
    ensures RightSoFar(lib, ops) <==> RightSoFar(lib, ops[..|ops| - 1]) && ProfileInv(HalRun(lib, ops))
  {
    var before := ops[..|ops| - 1];
    hide HalRun, ProfileInv;
    assert ops[..|ops|] == ops;
    assert forall n :: 0 <= n <= |before| ==> before[..n] == ops[..n];
    if RightSoFar(lib, ops) {
      forall n | 0 <= n <= |before| ensures ProfileInv(HalRun(lib, before[..n])) {
        assert ProfileInv(HalRun(lib, ops[..n]));
      }
    }
    if RightSoFar(lib, before) && ProfileInv(HalRun(lib, ops)) {
      forall n | 0 <= n <= |ops| ensures ProfileInv(HalRun(lib, ops[..n])) {
        if n < |ops| {
          assert ProfileInv(HalRun(lib, before[..n]));
        }
      }
    }
  }

  /**
    With both entry points, over any run, video hints on any id included: the profile entry has been right all along
    if and only if no step was a video hint that interfered.
  */
  lemma {:induction false} ProfileEntryOverRuns(lib: Library, ops: seq<HalOp>)
    requires lib.acq && lib.rel
    ensures RightSoFar(lib, ops) <==> NeverInterferes(lib, ops)
  {
    if ops == [] {
      assert ops[..0] == ops;
    } else {
      var before := ops[..|ops| - 1];
      ProfileEntryOverRuns(lib, before);
      RightSoFarUnfolds(lib, ops);
      if RightSoFar(lib, before) {
        assert before[..|before|] == before;
        assert ProfileInv(HalRun(lib, before));
        StepKeepsProfileInv(lib, HalRun(lib, before), ops[|ops| - 1]);
      }
    }
  }

  // ----- The C routines -----

  /** A switch is the undo of the profile in force, then a switch from BALANCED. */
  lemma SwitchInTwo(lib: Library, h: Hal, profile: int, a: Answer)
    ensures var undone := if h.profile == PROFILE_BALANCED then h
                          else Hal(PROFILE_BALANCED, Undo(lib, h.perf, DEFAULT_PROFILE_HINT_ID));
            Switch(lib, h, profile, a)
              == if profile == h.profile then h
                 else if profile == PROFILE_BALANCED then undone else Switch(lib, undone, profile, a)
  {
  }

  /** The statics of power-8084.c. */
  class PowerHal {
    const hints: PerfHints
    var currentProfile: int
    var firstDisplayOffHint: bool

    ghost predicate Valid()
      reads this, hints, hints.repr
    {
      this !in hints.repr && hints.Valid()
    }

    ghost function View(): Hal
      reads this, hints
    {
      Hal(currentProfile, hints.view)
    }

    constructor (lib: Library)
      ensures Valid() && View() == BOOT && hints.lib == lib
      ensures currentProfile == 1 && !firstDisplayOffHint
      ensures fresh(hints.repr)
    {
      hints := new PerfHints(lib);
      currentProfile, firstDisplayOffHint := PROFILE_BALANCED, false;
    }

    /** The half of `set_power_profile` behind the undo: the profile in force is BALANCED. */
    method TryProfile(profile: int, a: Answer)
      requires Valid() && currentProfile == PROFILE_BALANCED
      modifies this, hints.repr
      ensures Valid() && fresh(hints.repr - old(hints.repr))
      ensures View() == if profile == PROFILE_BALANCED then old(View())
                        else Switch(hints.lib, old(View()), profile, a)
    {
      hide Undo, Perform;
      var ret := -EINVAL;
      if HasResources(profile) {
        ret := hints.PerformHintAction(DEFAULT_PROFILE_HINT_ID, a.lock, a.hintMalloc, a.nodeMalloc);
      } else if profile == PROFILE_BALANCED {
        ret := 0;
      }
      if ret == 0 {
        currentProfile := profile;
      }
    }

    /** `set_power_profile`. */
    method SetPowerProfile(profile: int, a: Answer)
      requires Valid()
      modifies this, hints.repr
      ensures Valid() && fresh(hints.repr - old(hints.repr))
      ensures View() == HalStep(hints.lib, old(View()), SetProfile(profile, a))
    {
      SwitchInTwo(hints.lib, View(), profile, a);
      hide Undo, Perform, Switch, HasResources;
      if profile == currentProfile {
        return;
      }
      if currentProfile != PROFILE_BALANCED {
        hints.UndoHintAction(DEFAULT_PROFILE_HINT_ID);
        currentProfile := PROFILE_BALANCED;
      }
      TryProfile(profile, a);
    }

    /** `process_video_encode_hint` and `process_video_decode_hint`, reached through `power_hint_override`. */
    method ProcessVideoHint(state: int, id: nat, governor: Governor, a: Answer)
      requires Valid()
      modifies this, hints.repr
      ensures Valid() && fresh(hints.repr - old(hints.repr))
      ensures View() == HalStep(hints.lib, old(View()), Video(state, id, governor, a))
    {
      if currentProfile == PROFILE_POWER_SAVE {
        return;
      }
      if governor == Unreadable {
        return;
      }
      if state == 1 {
        if governor == Interactive {
          var _ := hints.PerformHintAction(id, a.lock, a.hintMalloc, a.nodeMalloc);
        }
      } else if state == 0 {
        if governor == Interactive {
          hints.UndoHintAction(id);
        }
      }
    }

    /** What `set_interactive_override` does to the list. */
    method SwitchDisplay(on: bool, governor: Governor, a: Answer)
      requires Valid()
      modifies hints.repr
      ensures Valid() && fresh(hints.repr - old(hints.repr))
      ensures hints.view == if on then DisplayOn(hints.lib, old(hints.view), governor, a)
                            else DisplayOff(hints.lib, old(hints.view), governor, a)
    {
      hide Undo, Perform;
      if !on {
        hints.UndoHintAction(DISPLAY_STATE_HINT_ID_2);
        if governor == Interactive {
          var _ := hints.PerformHintAction(DISPLAY_STATE_HINT_ID, a.lock, a.hintMalloc, a.nodeMalloc);
        }
      } else {
        var _ := hints.PerformHintAction(DISPLAY_STATE_HINT_ID_2, a.lock, a.hintMalloc, a.nodeMalloc);
        if governor == Interactive {
          hints.UndoHintAction(DISPLAY_STATE_HINT_ID);
        }
      }
    }

    /** `set_interactive_override`; the one raw release at the first display-off is not tracked. */
    method SetInteractiveOverride(on: bool, governor: Governor, a: Answer)
      requires Valid()
      modifies this, hints.repr
      ensures Valid() && fresh(hints.repr - old(hints.repr))
      ensures View() == HalStep(hints.lib, old(View()), Display(on, governor, a))
      ensures firstDisplayOffHint == (old(firstDisplayOffHint) || (governor != Unreadable && !on))
    {
      hide DisplayOn, DisplayOff;
      if governor == Unreadable {
        return;
      }
      if !on {
        if !firstDisplayOffHint {
          firstDisplayOffHint := true;
        }
      }
      SwitchDisplay(on, governor, a);
    }
  }
}
