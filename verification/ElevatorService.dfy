// Which requests the elevator of threads/elevator.cc can serve.  A request is followed from the moment it is made
// to the moment its person is gone, along a schedule of manager and person steps; together with the runs in which
// nobody is ever woken this gives the exact condition.
module ElevatorService {
  import opened Basics
  import opened Elevator

  // ---------------------------------------------------------------- the floor at which nobody is looked for

  /** On the floor of the person the manager always looks at the waiting table of the other direction, exactly
      for a request from the top floor to the top floor. */
  lemma OverlookedWhen(p: Person, numFloors: nat)
    requires OnFloors(p, numFloors) && numFloors >= 2
    ensures (forall s: State :: s.numFloors == numFloors && s.car.floor == p.at ==>
               ChooseDirection(s).car.movingUp != GoingUp(p))
            <==> p.at == p.to == numFloors
  {
    if !(p.at == p.to == numFloors) {
      var s := Initial(numFloors).(car := Car(p.at, GoingUp(p), 0));
      assert ChooseDirection(s).car.movingUp == GoingUp(p);
    }
  }

  // ---------------------------------------------------------------- paths

  /** One step of the manager or of a person; nobody new arrives. */
  ghost predicate Steps(s: State, a: Action, s': State) {
    Defined(s) && Enabled(s, a) && !a.Arrive? && s' == Next(s, a)
  }

  ghost predicate Path(states: seq<State>, actions: seq<Action>) {
    |states| == |actions| + 1 && forall n :: 0 <= n < |actions| ==> Steps(states[n], actions[n], states[n + 1])
  }

  ghost predicate CanReach(s: State, s': State) {
    exists states, actions :: Path(states, actions) && states[0] == s && states[|actions|] == s'
  }

  lemma CanStay(s: State)
    ensures CanReach(s, s)
  {
    var none: seq<Action> := [];
    assert Path([s], none) && [s][|none|] == s;
  }

  lemma PathMore(states: seq<State>, actions: seq<Action>, a: Action, s': State)
    requires Path(states, actions) && Steps(states[|actions|], a, s')
    ensures Path(states + [s'], actions + [a])
  {
    var states', actions' := states + [s'], actions + [a];
    forall n | 0 <= n < |actions'|
      ensures Steps(states'[n], actions'[n], states'[n + 1])
    {
      if n < |actions| {
        assert Steps(states[n], actions[n], states[n + 1]);
      }
    }
  }

  lemma OneMoreStep(s0: State, s: State, a: Action, s': State)
    requires CanReach(s0, s) && Steps(s, a, s')
    ensures CanReach(s0, s')
  {
    var states, actions :| Path(states, actions) && states[0] == s0 && states[|actions|] == s;
    PathMore(states, actions, a, s');
    assert (states + [s'])[0] == s0 && (states + [s'])[|actions + [a]|] == s';
  }

  /** There is one person, i, and the invariant holds. */
  ghost predicate Alone(s: State, i: int, p: Person) {
    Inv(s) && s.people == map[i := p] && s.count == 0
  }

  lemma ManagerGoes(s0: State, s: State)
    requires CanReach(s0, s) && Inv(s) && ManagerEnabled(s)
    ensures CanReach(s0, ManagerStep(s)) && Inv(ManagerStep(s))
  {
    OneMoreStep(s0, s, ManagerActs, ManagerStep(s));
    ManagerKeepsInv(s);
  }

  lemma PersonGoes(s0: State, s: State, i: int)
    requires CanReach(s0, s) && Inv(s) && PersonEnabled(s, i)
    ensures CanReach(s0, PersonStep(s, i)) && Inv(PersonStep(s, i))
  {
    OneMoreStep(s0, s, PersonActs(i), PersonStep(s, i));
    PersonKeepsInv(s, i);
  }

  // ---------------------------------------------------------------- the tables of a lone person

  lemma LoneRole(i: int, p: Person, r: Role)
    ensures |Members(map[i := p], r)| == One(Plays(p, r))
  {
    assert Members(map[], r) == {};
    HeadCount(map[], i, p, r);
    assert map[][i := p] == map[i := p];
  }

  /** The manager sees a lone person exactly in the table entry that counts that person. */
  lemma LoneLook(s: State, i: int, p: Person, next: Stage)
    requires Alone(s, i, p)
    ensures Look(s, next).getIn <==> Plays(p, WaitsAt(s.car.movingUp, s.car.floor))
    ensures Look(s, next).getOut <==> Plays(p, RidesTo(s.boss.outUp, s.car.floor))
    ensures s.car.numPeopleIn == One(IsCounted(p))
  {
    assert EntriesCount(s.tables, s.people, s.car.movingUp, s.car.floor);
    assert EntriesCount(s.tables, s.people, s.boss.outUp, s.car.floor);
    LoneRole(i, p, WaitsAt(s.car.movingUp, s.car.floor));
    LoneRole(i, p, RidesTo(s.boss.outUp, s.car.floor));
    LoneRole(i, p, CountedIn);
  }

  /** The manager, turned as it will be on this floor, has a reason to open the doors for the person. */
  predicate Stops(s: State, p: Person) {
    var c := ChooseDirection(s);
    Plays(p, WaitsAt(c.car.movingUp, c.car.floor)) || Plays(p, RidesTo(c.boss.outUp, c.car.floor))
  }

  /** The doors are about to be opened for the person. */
  ghost predicate Opening(s: State, p: Person) {
    && s.boss.stage.MTest? && s.lock.None? && (s.boss.getIn || s.boss.getOut)
    && (Plays(p, WaitsAt(s.car.movingUp, s.car.floor)) || Plays(p, RidesTo(s.boss.outUp, s.car.floor)))
  }

  // ---------------------------------------------------------------- the manager's rounds

  /** The manager turns, looks at the tables and releases the lock. */
  lemma LooksAround(s0: State, s: State, i: int, p: Person) returns (s': State)
    requires CanReach(s0, s) && Alone(s, i, p) && s.boss.stage.MTop?
    ensures CanReach(s0, s') && Alone(s', i, p) && s'.boss.stage.MTest? && s'.lock.None?
    ensures s'.numFloors == s.numFloors && s'.car == ChooseDirection(s).car
    ensures (s'.boss.getIn || s'.boss.getOut <==> Stops(s, p)) && (Stops(s, p) ==> Opening(s', p))
  {
    var s1 := ManagerStep(s);
    ManagerGoes(s0, s);
    LoneLook(s1, i, p, MTest);
    s' := ManagerStep(s1);
    ManagerGoes(s0, s1);
  }

  function Moved(car: Car): Car {
    car.(floor := if car.movingUp then car.floor + 1 else car.floor - 1)
  }

  /** The manager closes the doors. */
  lemma Departs(s0: State, s: State, i: int, p: Person) returns (s': State)
    requires CanReach(s0, s) && Alone(s, i, p) && s.boss.stage.MTest? && s.lock.None? && !s.boss.getIn && !s.boss.getOut
    ensures CanReach(s0, s') && Alone(s', i, p) && s'.boss.stage.MMove?
    ensures s'.numFloors == s.numFloors && s'.car == s.car
  {
    var s1 := ManagerStep(s);
    ManagerGoes(s0, s);
    s' := ManagerStep(s1);
    ManagerGoes(s0, s1);
  }

  /** The elevator moves by one floor, and since the request is open the manager goes on. */
  lemma Advances(s0: State, s: State, i: int, p: Person) returns (s': State)
    requires CanReach(s0, s) && Alone(s, i, p) && s.boss.stage.MMove?
    ensures CanReach(s0, s') && Alone(s', i, p) && s'.boss.stage.MTop?
    ensures s'.numFloors == s.numFloors && s'.car == Moved(s.car)
  {
    var s1 := ManagerStep(s);
    ManagerGoes(s0, s);
    s' := ManagerStep(s1);
    ManagerGoes(s0, s1);
  }

  /** With nobody to let in or out the manager moves on by one floor. */
  lemma MovesOn(s0: State, s: State, i: int, p: Person) returns (s': State)
    requires CanReach(s0, s) && Alone(s, i, p) && s.boss.stage.MTest? && s.lock.None? && !s.boss.getIn && !s.boss.getOut
    ensures CanReach(s0, s') && Alone(s', i, p) && s'.boss.stage.MTop?
    ensures s'.numFloors == s.numFloors && s'.car == Moved(s.car)
  {
    var s1 := Departs(s0, s, i, p);
    s' := Advances(s0, s1, i, p);
  }

  function Signalled(p: Person): Person {
    if p.phase.Waiting? then p.(phase := Woken) else p
  }

  lemma GoesToCheck(s0: State, s: State, i: int, p: Person) returns (s': State)
    requires CanReach(s0, s) && Alone(s, i, p) && s.boss.stage.MTest? && s.lock.None? && (s.boss.getIn || s.boss.getOut)
    ensures CanReach(s0, s') && Alone(s', i, p) && s'.boss.stage.MCheck?
    ensures s'.numFloors == s.numFloors && s'.car == s.car && s'.boss.outUp == s.boss.outUp
  {
    var s1 := ManagerStep(s);
    ManagerGoes(s0, s);
    s' := ManagerStep(s1);
    ManagerGoes(s0, s1);
  }

  /** The manager looks again, wakes whoever waits and releases the lock. */
  lemma Wakes(s0: State, s: State, i: int, p: Person) returns (s': State)
    requires CanReach(s0, s) && Alone(s, i, p) && s.boss.stage.MCheck?
    ensures CanReach(s0, s') && Alone(s', i, Signalled(p)) && s'.boss.stage.MTest? && s'.lock.None?
    ensures s'.numFloors == s.numFloors && s'.car == s.car && s'.boss.outUp == s.boss.outUp
    ensures s'.boss.getIn <==> Plays(p, WaitsAt(s.car.movingUp, s.car.floor))
    ensures s'.boss.getOut <==> Plays(p, RidesTo(s.boss.outUp, s.car.floor))
  {
    LoneLook(s, i, p, MChecked);
    var s1 := ManagerStep(s);
    ManagerGoes(s0, s);
    assert s1.people == map[i := Signalled(p)];
    s' := ManagerStep(s1);
    ManagerGoes(s0, s1);
  }

  /** With somebody to let in or out the manager looks again and wakes whoever waits. */
  lemma OpensDoors(s0: State, s: State, i: int, p: Person) returns (s': State)
    requires CanReach(s0, s) && Alone(s, i, p) && s.boss.stage.MTest? && s.lock.None? && (s.boss.getIn || s.boss.getOut)
    ensures CanReach(s0, s') && Alone(s', i, Signalled(p)) && s'.boss.stage.MTest? && s'.lock.None?
    ensures s'.numFloors == s.numFloors && s'.car == s.car && s'.boss.outUp == s.boss.outUp
    ensures s'.boss.getIn <==> Plays(p, WaitsAt(s.car.movingUp, s.car.floor))
    ensures s'.boss.getOut <==> Plays(p, RidesTo(s.boss.outUp, s.car.floor))
  {
    var s1 := GoesToCheck(s0, s, i, p);
    s' := Wakes(s0, s1, i, p);
  }

  // ---------------------------------------------------------------- the way to a floor

  /** The place of a floor in the round trip: up from 1 to numFloors - 1, then down from numFloors to 2. */
  function Position(numFloors: int, floor: int, up: bool): int {
    if up then floor else 2 * numFloors - floor
  }

  ghost function Place(s: State): int {
    Position(s.numFloors, s.car.floor, ChooseDirection(s).car.movingUp)
  }

  /** Where in the round trip the manager opens the doors for the person. */
  function Target(p: Person, numFloors: int): int {
    if p.riding then (if GoingUp(p) then p.to else if p.to == 1 then 1 else 2 * numFloors - p.to)
    else Position(numFloors, p.at, GoingUp(p))
  }

  /** The request is not one from the top floor to the top floor, or its person is on the way already. */
  predicate Servable(p: Person, numFloors: int) {
    && OnFloors(p, numFloors) && (p.riding ==> p.at != p.to) && !(p.at == p.to == numFloors)
  }

  lemma PlaceRange(s: State)
    requires s.numFloors >= 2 && 1 <= s.car.floor <= s.numFloors
    ensures 1 <= Place(s) <= 2 * s.numFloors - 2
  {
  }

  lemma TargetRange(p: Person, numFloors: int)
    requires numFloors >= 2 && Servable(p, numFloors)
    ensures 1 <= Target(p, numFloors) <= 2 * numFloors - 2
  {
  }

  /** The manager opens the doors for somebody who waits at exactly one place of its round trip. */
  lemma StopsWhen(s: State, p: Person)
    requires s.numFloors >= 2 && 1 <= s.car.floor <= s.numFloors && Servable(p, s.numFloors) && p.phase.Waiting?
    ensures Stops(s, p) <==> Place(s) == Target(p, s.numFloors)
  {
  }

  /** Passing a floor goes one place further. */
  lemma NextPlace(s: State, s': State)
    requires s.numFloors >= 2 && 1 <= s.car.floor <= s.numFloors
    requires s'.numFloors == s.numFloors && s'.car == Moved(ChooseDirection(s).car)
    ensures Place(s') == if Place(s) == 2 * s.numFloors - 2 then 1 else Place(s) + 1
  {
  }

  function Distance(numFloors: int, place: int, target: int): int {
    if place <= target then target - place else target - place + 2 * numFloors - 2
  }

  /** The elevator comes to the place where it opens its doors for the person. */
  lemma {:induction false} Approaches(s0: State, s: State, i: int, p: Person) returns (s': State)
    requires CanReach(s0, s) && Alone(s, i, p) && s.boss.stage.MTop? && p.phase.Waiting? && Servable(p, s.numFloors)
    ensures CanReach(s0, s') && Alone(s', i, p) && s'.numFloors == s.numFloors && Opening(s', p)
    decreases Distance(s.numFloors, Place(s), Target(p, s.numFloors))
  {
    PlaceRange(s);
    TargetRange(p, s.numFloors);
    StopsWhen(s, p);
    s' := LooksAround(s0, s, i, p);
    if !Stops(s, p) {
      var s1 := MovesOn(s0, s', i, p);
      NextPlace(s, s1);
      s' := Approaches(s0, s1, i, p);
    }
  }

  // ---------------------------------------------------------------- the person's part

  /** One step of the lone person. */
  lemma LonePersonGoes(s0: State, s: State, i: int, p: Person) returns (s': State)
    requires CanReach(s0, s) && Alone(s, i, p) && PersonEnabled(s, i)
    ensures CanReach(s0, s') && Inv(s') && s'.people == map[i := PersonAfter(s.car, p)]
    ensures s'.numFloors == s.numFloors && s'.car == CarAfter(s.car, p) && s'.boss == s.boss
    ensures s'.lock == LockAfter(s.lock, i, p) && (!p.phase.Arrived? ==> s'.count == 0)
  {
    s' := PersonStep(s, i);
    PersonGoes(s0, s, i);
    assert map[i := p][i := PersonAfter(s.car, p)] == map[i := PersonAfter(s.car, p)];
  }

  /** From being woken to standing in the elevator, ready to wait again. */
  lemma Boards(s0: State, s: State, i: int, p: Person) returns (s': State)
    requires CanReach(s0, s) && Alone(s, i, p) && s.boss.stage.MTest? && s.lock.None?
    requires p.phase.Woken? && !p.riding && p.at != p.to && s.car.floor == p.at && s.car.movingUp == GoingUp(p)
    ensures CanReach(s0, s') && Alone(s', i, p.(riding := true, phase := AtLoop)) && s'.lock.None?
    ensures s'.numFloors == s.numFloors && s'.boss == s.boss
    ensures s'.car.floor == s.car.floor && s'.car.movingUp == s.car.movingUp
  {
    var s1 := LonePersonGoes(s0, s, i, p);
    var p1 := p.(phase := Deciding);
    LoneLook(s1, i, p1, MTest);
    var s2 := LonePersonGoes(s0, s1, i, p1);
    var p2 := p.(phase := BoardCount);
    var s3 := LonePersonGoes(s0, s2, i, p2);
    s' := LonePersonGoes(s0, s3, i, p.(riding := true, phase := Decided));
  }

  /** Back to waiting on the condition. */
  lemma WaitsAgain(s0: State, s: State, i: int, p: Person) returns (s': State)
    requires CanReach(s0, s) && Alone(s, i, p) && s.boss.stage.MTest? && s.lock.None? && p.phase.AtLoop?
    ensures CanReach(s0, s') && Alone(s', i, p.(phase := Waiting)) && s'.lock.None?
    ensures s'.numFloors == s.numFloors && s'.boss == s.boss && s'.car == s.car
  {
    var s1 := LonePersonGoes(s0, s, i, p);
    s' := LonePersonGoes(s0, s1, i, p.(phase := Entering));
  }

  ghost predicate IsGone(s: State, i: int) {
    i in s.people && s.people[i].phase.Gone?
  }

  /** From the report that the request is fulfilled to the end of the thread. */
  lemma Reports(s0: State, s: State, i: int, p: Person) returns (s': State)
    requires CanReach(s0, s) && Alone(s, i, p) && p.phase.Arrived? && s.boss.stage.MTest?
    ensures CanReach(s0, s') && IsGone(s', i)
  {
    var s1 := LonePersonGoes(s0, s, i, p);
    s' := PersonStep(s1, i);
    PersonGoes(s0, s1, i);
  }

  /** From being woken on the wanted floor to the end of the thread. */
  lemma GetsOutForGood(s0: State, s: State, i: int, p: Person) returns (s': State)
    requires CanReach(s0, s) && Alone(s, i, p) && s.boss.stage.MTest? && s.lock.None? && p.phase.Woken?
    requires s.car.floor == p.to && (p.at == p.to || p.riding)
    ensures CanReach(s0, s') && IsGone(s', i)
  {
    var s1 := LonePersonGoes(s0, s, i, p);
    var p1 := p.(phase := Deciding);
    var s2 := LonePersonGoes(s0, s1, i, p1);
    if p.at == p.to {
      s' := Reports(s0, s2, i, p.(phase := Arrived));
    } else {
      var s3 := LonePersonGoes(s0, s2, i, p.(phase := LeaveCount));
      s' := Reports(s0, s3, i, p.(phase := Arrived));
    }
  }

  // ---------------------------------------------------------------- a whole service

  /** A rider is brought to the wanted floor. */
  lemma BringsRider(s0: State, s: State, i: int, p: Person) returns (s': State)
    requires CanReach(s0, s) && Alone(s, i, p) && s.boss.stage.MTop? && p.phase.Waiting? && p.riding
    requires Servable(p, s.numFloors)
    ensures CanReach(s0, s') && IsGone(s', i)
  {
    var s1 := Approaches(s0, s, i, p);
    var s2 := OpensDoors(s0, s1, i, p);
    s' := GetsOutForGood(s0, s2, i, p.(phase := Woken));
  }

  /** Whoever boards is on the way with the doors closed. */
  lemma TakesOff(s0: State, s: State, i: int, p: Person) returns (s': State)
    requires CanReach(s0, s) && Alone(s, i, p) && s.boss.stage.MTest? && s.lock.None? && (s.boss.getIn || s.boss.getOut)
    requires p.phase.Woken? && !p.riding && p.at != p.to && s.car.floor == p.at && s.car.movingUp == GoingUp(p)
    ensures CanReach(s0, s') && Alone(s', i, p.(riding := true, phase := Waiting)) && s'.boss.stage.MTop?
    ensures s'.numFloors == s.numFloors
  {
    var aboard := p.(riding := true, phase := AtLoop);
    var s1 := Boards(s0, s, i, p);
    var s2 := OpensDoors(s0, s1, i, aboard);
    var s3 := WaitsAgain(s0, s2, i, aboard);
    s' := MovesOn(s0, s3, i, p.(riding := true, phase := Waiting));
  }

  /** Somebody who waits for the elevator is brought to the wanted floor. */
  lemma Serves(s0: State, s: State, i: int, p: Person) returns (s': State)
    requires CanReach(s0, s) && Alone(s, i, p) && s.boss.stage.MTop? && p.phase.Waiting? && !p.riding
    requires Servable(p, s.numFloors)
    ensures CanReach(s0, s') && IsGone(s', i)
  {
    var s1 := Approaches(s0, s, i, p);
    var s2 := OpensDoors(s0, s1, i, p);
    var woken := p.(phase := Woken);
    if p.at == p.to {
      s' := GetsOutForGood(s0, s2, i, woken);
    } else {
      var s3 := TakesOff(s0, s2, i, woken);
      s' := BringsRider(s0, s3, i, p.(riding := true));
    }
  }

  // ---------------------------------------------------------------- the exact condition

  /** The state in which the person has just asked. */
  function Asked(numFloors: nat, i: int, at: int, to: int): State {
    Initial(numFloors).(people := map[i := Person(at, to, false, Born)])
  }

  lemma AskedIsNext(numFloors: nat, i: int, at: int, to: int)
    requires numFloors >= 2 && 1 <= at <= numFloors && 1 <= to <= numFloors
    ensures Defined(Initial(numFloors)) && Enabled(Initial(numFloors), Arrive(i, at, to))
    ensures Next(Initial(numFloors), Arrive(i, at, to)) == Asked(numFloors, i, at, to)
    ensures Alone(Asked(numFloors, i, at, to), i, Person(at, to, false, Born))
  {
    InitialInv(numFloors);
    ArriveKeepsInv(Initial(numFloors), i, at, to);
    assert map[][i := Person(at, to, false, Born)] == map[i := Person(at, to, false, Born)];
  }

  /** The person presses the button and waits, and the manager starts. */
  lemma Begins(s: State, i: int, p: Person) returns (s': State)
    requires Alone(s, i, p) && p.phase.Born? && s.boss.stage.MStart? && s.lock.None?
    ensures CanReach(s, s') && Alone(s', i, p.(phase := Waiting)) && s'.boss.stage.MTop? && s'.numFloors == s.numFloors
  {
    CanStay(s);
    var s1 := LonePersonGoes(s, s, i, p);
    var s2 := LonePersonGoes(s, s1, i, p.(phase := AtLoop));
    var s3 := LonePersonGoes(s, s2, i, p.(phase := Entering));
    s' := ManagerStep(s3);
    ManagerGoes(s, s3);
  }

  /** In the run nobody asks but person i, who is served. */
  ghost predicate ServedAlone(states: seq<State>, actions: seq<Action>, numFloors: nat, i: int, at: int, to: int) {
    && Run(states, actions, numFloors)
    && (forall k :: 0 <= k < |actions| && actions[k].Arrive? ==> actions[k] == Arrive(i, at, to))
    && IsGone(states[|actions|], i)
  }

  lemma PrependedRun(numFloors: nat, ask: Action, path: seq<State>, steps: seq<Action>)
    requires Path(path, steps) && RunsOn(Initial(numFloors), ask, path[0])
    ensures Run([Initial(numFloors)] + path, [ask] + steps, numFloors)
  {
    var states, actions := [Initial(numFloors)] + path, [ask] + steps;
    forall n | 0 <= n < |actions|
      ensures RunsOn(states[n], actions[n], states[n + 1])
    {
      if n > 0 {
        assert states[n] == path[n - 1] && actions[n] == steps[n - 1] && states[n + 1] == path[n];
        assert Steps(path[n - 1], steps[n - 1], path[n]);
      }
    }
  }

  lemma NobodyElseAsks(path: seq<State>, steps: seq<Action>, ask: Action)
    requires Path(path, steps)
    ensures forall k :: 0 <= k < |[ask] + steps| && ([ask] + steps)[k].Arrive? ==> ([ask] + steps)[k] == ask
  {
    forall k | 0 < k < |[ask] + steps|
      ensures !([ask] + steps)[k].Arrive?
    {
      assert Steps(path[k - 1], steps[k - 1], path[k]);
    }
  }

  lemma PathIsRun(numFloors: nat, i: int, at: int, to: int, s': State)
    requires RunsOn(Initial(numFloors), Arrive(i, at, to), Asked(numFloors, i, at, to))
    requires CanReach(Asked(numFloors, i, at, to), s') && IsGone(s', i)
    ensures exists states, actions :: ServedAlone(states, actions, numFloors, i, at, to)
  {
    var ask := Arrive(i, at, to);
    var path, steps :| Path(path, steps) && path[0] == Asked(numFloors, i, at, to) && path[|steps|] == s';
    PrependedRun(numFloors, ask, path, steps);
    NobodyElseAsks(path, steps, ask);
    assert ([Initial(numFloors)] + path)[|[ask] + steps|] == path[|steps|];
    assert ServedAlone([Initial(numFloors)] + path, [ask] + steps, numFloors, i, at, to);
  }

  lemma TopToTopIsNotServed(states: seq<State>, actions: seq<Action>, numFloors: nat, i: int)
    requires numFloors >= 2
    ensures !ServedAlone(states, actions, numFloors, i, numFloors, numFloors)
  {
    if Run(states, actions, numFloors)
       && (forall k :: 0 <= k < |actions| && actions[k].Arrive? ==> actions[k] == Arrive(i, numFloors, numFloors)) {
      TopFloorStarves(states, actions, numFloors, |actions|);
      assert i in states[|actions|].people ==> Early(states[|actions|].people[i]);
    }
  }

  /** A request that is the only one can be served, by some schedule, if and only if it is not one from the top
      floor to the top floor. */
  lemma ServedWhen(numFloors: nat, i: int, at: int, to: int)
    requires numFloors >= 2 && 1 <= at <= numFloors && 1 <= to <= numFloors
    ensures (exists states, actions :: ServedAlone(states, actions, numFloors, i, at, to)) <==> !(at == to == numFloors)
  {
    if at == to == numFloors {
      forall states, actions
        ensures !ServedAlone(states, actions, numFloors, i, at, to)
      {
        TopToTopIsNotServed(states, actions, numFloors, i);
      }
    } else {
      AskedIsNext(numFloors, i, at, to);
      var s, p := Asked(numFloors, i, at, to), Person(at, to, false, Born);
      var s1 := Begins(s, i, p);
      var s2 := Serves(s, s1, i, p.(phase := Waiting));
      PathIsRun(numFloors, i, at, to, s2);
    }
  }
}
