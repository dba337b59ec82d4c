/**
  The decision logic of the rescue robot's finite-state-machine agent. The
  FSM transitions, dispatcher events and action-client requests the agent
  issues are recorded, in order, in `actions`; the state manager's global
  mode and the transform lookup are passed in.
*/
module FsmAgent {
  import opened Options

  /**
    A victim message of the world model (a target): its id, whether it is
    identified, and `info`, which stands for every other field of the message
    (pose, frame, probability). Equality of two victims is equality of whole
    messages, as the membership test of check_for_targets compares them; a
    lookup by id alone is FindById.
  */
  datatype Victim = Victim(id: int, identified: bool, info: int)

  /** Exploration goal types: coverage ("deep") and fast exploration. */
  datatype ExplorationType = TypeDeep | TypeFast

  /** The robot's global mode, as far as exploration cares. */
  datatype GlobalMode = ModeExplorationRescue | OtherMode(code: int)

  /** An outward effect of a handler. */
  datatype Action =
    | Transition(trigger: string)      // an FSM trigger such as valid_victim
    | Emit(event: string)              // a dispatcher event such as poi.found
    | MoveBase(goal: Option<Victim>)   // navigator goal towards the target's pose
    | CancelNavigation                 // navigator.cancel_all_goals()
    | ExploreGoal(kind: ExplorationType) // explorer goal

  const Exploration: string := "exploration"
  const Identification: string := "identification"
  const PoiFound: string := "poi.found"
  /** Distance that every reachable target beats in the nearest-target search. */
  const MaxDistance: real := 1000.0

  /**
    The exploration type requested in a global mode. The two-way case split
    is the whole of the mode rule: coverage in rescue-exploration mode, fast
    in every other mode.
  */
  function ExplorationFor(mode: GlobalMode): (kind: ExplorationType)
    ensures kind == TypeDeep <==> mode == ModeExplorationRescue
  {
    if mode == ModeExplorationRescue then TypeDeep else TypeFast
  }

  /** The first victim with the given id, if any. */
  function FindById(victims: seq<Victim>, id: int): (r: Option<Victim>)
    ensures r.Some? <==> exists v :: v in victims && v.id == id
    ensures r.Some? ==> r.value in victims && r.value.id == id
  {
    if |victims| == 0 then None
    else if victims[0].id == id then Some(victims[0])
    else FindById(victims[1..], id)
  }

  /** Number of leading targets whose distance lookup succeeds. */
  ghost function KnownPrefix(targets: seq<Victim>, distance: Victim -> Option<real>): (p: nat)
    ensures p <= |targets|
    ensures forall j :: 0 <= j < p ==> distance(targets[j]).Some?
    ensures p < |targets| ==> distance(targets[p]).None?
  {
    if |targets| == 0 || distance(targets[0]).None? then 0
    else 1 + KnownPrefix(targets[1..], distance)
  }

  /**
    Index k is what the nearest-target search selects among targets whose
    lookups succeed up to the first failure: the first target whose distance
    is strictly minimal and below MaxDistance, or the first target when no
    distance is below it.
  */
  ghost predicate IsChoice(targets: seq<Victim>, distance: Victim -> Option<real>, k: nat)
  {
    var p := KnownPrefix(targets, distance);
    && k < |targets|
    && ((k < p
         && distance(targets[k]).value < MaxDistance
         && (forall j :: 0 <= j < k ==> distance(targets[j]).value > distance(targets[k]).value)
         && (forall j :: k < j < p ==> distance(targets[j]).value >= distance(targets[k]).value))
        || (k == 0 && forall j :: 0 <= j < p ==> distance(targets[j]).value >= MaxDistance))
  }

  /** The search's choice is unique. */
  lemma ChoiceUnique(targets: seq<Victim>, distance: Victim -> Option<real>, k1: nat, k2: nat)
    requires IsChoice(targets, distance, k1) && IsChoice(targets, distance, k2)
    ensures k1 == k2
  {
  }

  class Agent {
    /** Failed move-base attempts tolerated before the target is given up. */
    const retryLimit: int
    /** The current FSM state. */
    var state: string
    /** Move-base attempts retried for the current target so far. */
    var moveBaseRetries: int
    /** The target being pursued, or None when the target is empty. */
    var target: Option<Victim>
    /** The victims of the latest world model. */
    var availableTargets: seq<Victim>
    /** The base has come close enough to the target. */
    var baseConverged: bool
    /** The move-base watchdog timer is running. */
    var timerRunning: bool
    /** The operator's verdict on the current victim. */
    var victimValid: bool
    /** Every transition, event and request issued so far, oldest first. */
    var actions: seq<Action>

    /** The retry counter never leaves [0, retryLimit]. */
    ghost predicate Valid()
      reads this
    {
      0 <= moveBaseRetries <= retryLimit
    }

    constructor (retryLimit: nat, initialState: string)
      ensures Valid()
      ensures this.retryLimit == retryLimit && state == initialState
      ensures moveBaseRetries == 0 && target == None && availableTargets == []
      ensures !baseConverged && !timerRunning && !victimValid && actions == []
    {
      this.retryLimit := retryLimit;
      state := initialState;
      moveBaseRetries := 0;
      target := None;
      availableTargets := [];
      baseConverged, timerRunning, victimValid := false, false, false;
      actions := [];
    }

    /** 'exploration.success': the map is covered; acted on only while exploring. */
    method ExplorationSuccess()
      modifies this`actions
      ensures old(state) == Exploration ==> actions == old(actions) + [Transition("map_covered")]
      ensures old(state) != Exploration ==> actions == old(actions)
    {
      if state == Exploration {
        actions := actions + [Transition("map_covered")];
      }
    }

    /** 'exploration.retry': a failed exploration goal is sent again, only while exploring. */
    method ExplorationRetry(mode: GlobalMode)
      modifies this`actions
      ensures old(state) == Exploration ==> actions == old(actions) + [ExploreGoal(ExplorationFor(mode))]
      ensures old(state) != Exploration ==> actions == old(actions)
    {
      if state == Exploration {
        Explore(mode);
      }
    }

    /** 'move_base.success': the counter is reset; in identification the victim is valid. */
    method MoveBaseSuccess()
      requires Valid()
      modifies this`moveBaseRetries, this`timerRunning, this`actions
      ensures Valid() && moveBaseRetries == 0
      ensures old(state) == Identification ==>
        !timerRunning && actions == old(actions) + [Transition("valid_victim")]
      ensures old(state) != Identification ==>
        timerRunning == old(timerRunning) && actions == old(actions)
    {
      moveBaseRetries := 0;
      if state != Identification {
        return;
      }
      timerRunning := false;
      actions := actions + [Transition("valid_victim")];
    }

    /**
      'move_base.retry': below the limit the goal is resent and counted; at
      the limit the counter is reset, the timer cancelled, and the victim is
      kept if identified or reached, and aborted otherwise.
    */
    method MoveBaseRetry()
      requires Valid()
      modifies this`moveBaseRetries, this`timerRunning, this`actions
      ensures Valid()
      ensures old(state) != Identification ==>
        moveBaseRetries == old(moveBaseRetries) && timerRunning == old(timerRunning) && actions == old(actions)
      ensures old(state) == Identification && old(moveBaseRetries) < retryLimit ==>
        && moveBaseRetries == old(moveBaseRetries) + 1
        && timerRunning == old(timerRunning)
        && actions == old(actions) + [MoveBase(target)]
      ensures old(state) == Identification && old(moveBaseRetries) >= retryLimit ==>
        && moveBaseRetries == 0
        && !timerRunning
        && actions == old(actions) + [Transition(
             if (target.Some? && target.value.identified) || baseConverged then "valid_victim" else "abort_victim")]
    {
      if state != Identification {
        return;
      }
      if moveBaseRetries < retryLimit {
        moveBaseRetries := moveBaseRetries + 1;
        actions := actions + [MoveBase(target)];
      } else {
        moveBaseRetries := 0;
        timerRunning := false;
        if target.Some? && target.value.identified {
          actions := actions + [Transition("valid_victim")];
        } else if baseConverged {
          actions := actions + [Transition("valid_victim")];
        } else {
          actions := actions + [Transition("abort_victim")];
        }
      }
    }

    /** The move-base watchdog fired: in identification all goals are cancelled and the victim aborted. */
    method TimerHandler()
      modifies this`timerRunning, this`actions
      ensures old(state) == Identification ==>
        !timerRunning && actions == old(actions) + [CancelNavigation, Transition("abort_victim")]
      ensures old(state) != Identification ==>
        timerRunning == old(timerRunning) && actions == old(actions)
    {
      if state == Identification {
        timerRunning := false;
        actions := actions + [CancelNavigation, Transition("abort_victim")];
      }
    }

    /**
      Chooses the nearest target. `distance` stands for the transform lookup
      and the planar distance; None is a failed lookup, which ends the search
      with the best target found so far.
    */
    method ChooseTarget(targets: seq<Victim>, distance: Victim -> Option<real>) returns (r: Option<Victim>)
      ensures |targets| == 0 <==> r == None
      ensures |targets| == 1 ==> r == Some(targets[0])
      ensures r.Some? ==> r.value in targets
      ensures |targets| >= 2 ==> exists k: nat :: IsChoice(targets, distance, k) && r == Some(targets[k])
    {
      if |targets| == 0 {
        return None;
      }
      var closest := targets[0];
      ghost var best: nat := 0;
      var minDistance := MaxDistance;
      if |targets| == 1 {
        return Some(closest);
      }
      var i := 0;
      while i < |targets|
        invariant 0 <= i <= |targets|
        invariant i <= KnownPrefix(targets, distance)
        invariant best < |targets| && closest == targets[best]
        invariant minDistance <= MaxDistance
        invariant minDistance < MaxDistance ==>
          && best < i
          && minDistance == distance(targets[best]).value
          && (forall j :: 0 <= j < best ==> distance(targets[j]).value > minDistance)
          && (forall j :: best < j < i ==> distance(targets[j]).value >= minDistance)
        invariant minDistance == MaxDistance ==>
          best == 0 && forall j :: 0 <= j < i ==> distance(targets[j]).value >= MaxDistance
      {
        var d := distance(targets[i]);
        if d.None? {
          assert IsChoice(targets, distance, best);
          return Some(closest);
        }
        if d.value < minDistance {
          minDistance := d.value;
          closest := targets[i];
          best := i;
        }
        i := i + 1;
      }
      assert IsChoice(targets, distance, best);
      return Some(closest);
    }

    /**
      A new world model. Without victims nothing happens. Otherwise the
      victims become the available targets; an empty target is set to the
      nearest victim, a held target is refreshed from the model, or cleared
      without any event if the model no longer has its id.
    */
    method ReceiveWorldModel(victims: seq<Victim>, distance: Victim -> Option<real>)
      modifies this`availableTargets, this`target, this`actions
      ensures victims == [] ==>
        availableTargets == old(availableTargets) && target == old(target) && actions == old(actions)
      ensures victims != [] ==> availableTargets == victims
      ensures victims != [] && old(target).None? ==>
        && target.Some? && target.value in victims
        && (|victims| >= 2 ==> exists k: nat :: IsChoice(victims, distance, k) && target == Some(victims[k]))
        && actions == old(actions) + [Emit(PoiFound)]
      ensures victims != [] && old(target).Some? && FindById(victims, old(target).value.id).None? ==>
        target == None && actions == old(actions)
      ensures victims != [] && old(target).Some? && FindById(victims, old(target).value.id).Some? ==>
        target == FindById(victims, old(target).value.id) && actions == old(actions) + [Emit(PoiFound)]
    {
      if victims == [] {
        return;
      }
      availableTargets := victims;
      if target.None? {
        var newTarget := ChooseTarget(victims, distance);
        target := newTarget;
      } else {
        var held := FindById(victims, target.value.id);
        if held.None? {
          target := None;
          return;
        }
        target := held;
      }
      actions := actions + [Emit(PoiFound)];
    }

    /** Sets up for the next exploration: no valid victim and an empty target. */
    method ResetEnvironment()
      modifies this`victimValid, this`target
      ensures !victimValid && target == None
    {
      victimValid := false;
      target := None;
    }

    /** Requests coverage exploration in rescue-exploration mode and fast exploration otherwise. */
    method Explore(mode: GlobalMode)
      modifies this`actions
      ensures actions == old(actions) + [ExploreGoal(ExplorationFor(mode))]
      ensures |actions| == |old(actions)| + 1
      ensures (actions[|actions| - 1] == ExploreGoal(TypeDeep)) <==> mode == ModeExplorationRescue
    {
      if mode == ModeExplorationRescue {
        actions := actions + [ExploreGoal(TypeDeep)];
      } else {
        actions := actions + [ExploreGoal(TypeFast)];
      }
    }

    /**
      Looks for a target without waiting for the next world model. A held
      target that is no longer available is cleared first; then either a
      target is held and 'poi.found' is emitted, or there is none and
      exploration is requested.
    */
    method CheckForTargets(mode: GlobalMode, distance: Victim -> Option<real>)
      modifies this`target, this`actions
      ensures (target.Some? && actions == old(actions) + [Emit(PoiFound)])
           || (target == None && actions == old(actions) + [ExploreGoal(ExplorationFor(mode))])
      ensures old(target).Some? && old(target).value in availableTargets ==>
        target == old(target) && actions == old(actions) + [Emit(PoiFound)]
      ensures !(old(target).Some? && old(target).value in availableTargets) && availableTargets != [] ==>
        && target.Some? && target.value in availableTargets
        && (|availableTargets| >= 2 ==> exists k: nat :: IsChoice(availableTargets, distance, k) && target == Some(availableTargets[k]))
        && actions == old(actions) + [Emit(PoiFound)]
      ensures !(old(target).Some? && old(target).value in availableTargets) && availableTargets == [] ==>
        target == None && actions == old(actions) + [ExploreGoal(ExplorationFor(mode))]
    {
      if target.Some? && target.value in availableTargets {
        actions := actions + [Emit(PoiFound)];
        return;
      }
      target := None;
      if availableTargets != [] {
        var newTarget := ChooseTarget(availableTargets, distance);
        target := newTarget;
        actions := actions + [Emit(PoiFound)];
      } else {
        Explore(mode);
      }
    }
  }
}
