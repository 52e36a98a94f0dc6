// The elevator of threads/elevator.cc: one manager thread and any number of person threads that share a lock e, a
// condition cv, the button tables (always used inside the semaphore q) and the request counters (inside the semaphore
// c).  A section under q or c is one step; everything else interleaves.  Acquiring e is a step that is possible only
// while e is free, which is what Lock guarantees.
module Elevator {
  import opened Basics

  const CAPACITY := 5

  // ---------------------------------------------------------------- the state

  datatype Phase =
    | Born                // before pressing the button
    | AtLoop              // at the head of the loop, wants e
    | Entering            // holds e, about to wait on cv
    | Waiting             // asleep on cv
    | Woken               // signalled, wants e
    | Deciding            // holds e again, looks at the elevator
    | BoardCount          // holds e, tables updated, about to be counted in
    | LeaveCount          // holds e, tables updated, about to be counted out
    | Decided             // holds e, about to release it and loop
    | Arrived             // holds e, about to report the request as fulfilled
    | Leaving             // holds e, about to release it for good
    | Gone

  datatype Person = Person(at: int, to: int, riding: bool, phase: Phase)

  datatype Stage =
    | MStart              // before the first Acquire
    | MTop                // holds e, head of the loop
    | MScan               // holds e, direction chosen, first look at the tables
    | MTest               // tests getIn || getOut
    | MWant               // wants e to look again
    | MCheck              // holds e, looks at the tables and broadcasts
    | MChecked            // holds e, about to release it
    | MWantMove           // wants e to move
    | MMove               // holds e, about to leave the floor
    | MCount              // holds e, about to test whether all requests are fulfilled
    | MBreak              // holds e, about to release it for good
    | MStopped

  datatype Actor = Manager | ByPerson(id: int)

  /** The shared elevator variables. */
  datatype Car = Car(floor: int, movingUp: bool, numPeopleIn: int)

  /** The button tables, indexed by floor. */
  datatype Tables = Tables(upQueue: seq<int>, upToQueue: seq<int>, downQueue: seq<int>, downToQueue: seq<int>)

  /** The manager's position and local variables; outUp says which destination table it serves at this floor. */
  datatype Boss = Boss(stage: Stage, outUp: bool, getIn: bool, getOut: bool)

  datatype State = State(
    numFloors: int, car: Car, tables: Tables, count: int, lock: Option<Actor>, people: map<int, Person>, boss: Boss)

  predicate GoingUp(p: Person) {
    p.to >= p.at
  }

  predicate InLoop(p: Person) {
    || p.phase.AtLoop? || p.phase.Entering? || p.phase.Waiting? || p.phase.Woken? || p.phase.Deciding?
    || p.phase.Decided?
  }

  /** Has pressed the button on a floor and was not served yet. */
  predicate IsWaiting(p: Person) {
    InLoop(p) && !p.riding
  }

  /** Has pressed the button of a destination. */
  predicate IsRiding(p: Person) {
    (InLoop(p) && p.riding) || p.phase == BoardCount
  }

  /** Is counted in numPeopleIn. */
  predicate IsCounted(p: Person) {
    (InLoop(p) && p.riding) || p.phase == LeaveCount
  }

  /** Gets out, or stands on the wanted floor already, and still holds e. */
  predicate GetsOut(p: Person) {
    p.phase.LeaveCount? || p.phase.Arrived? || p.phase.Leaving?
  }

  predicate HoldsLock(p: Person) {
    || p.phase.Entering? || p.phase.Deciding? || p.phase.BoardCount? || p.phase.LeaveCount? || p.phase.Decided?
    || p.phase.Arrived? || p.phase.Leaving?
  }

  predicate ManagerHolds(m: Stage) {
    (m.MTop? || m.MScan? || m.MCheck? || m.MChecked? || m.MMove? || m.MCount? || m.MBreak?)
  }

  /** The manager leaves its loop inside the section under c and never gives c back. */
  predicate CounterKept(m: Stage) {
    m.MBreak? || m.MStopped?
  }

  // ---------------------------------------------------------------- the tables

  /** Tables cover the floors. */
  predicate Shaped(t: Tables, numFloors: int) {
    |t.upQueue| == |t.downQueue| == |t.upToQueue| == |t.downToQueue| == numFloors + 1
  }

  function WaitTable(t: Tables, up: bool): seq<int> {
    if up then t.upQueue else t.downQueue
  }

  function DestTable(t: Tables, up: bool): seq<int> {
    if up then t.upToQueue else t.downToQueue
  }

  function AddWait(t: Tables, up: bool, f: int, d: int): Tables
    requires 0 <= f < |WaitTable(t, up)|
  {
    if up then t.(upQueue := t.upQueue[f := t.upQueue[f] + d])
    else t.(downQueue := t.downQueue[f := t.downQueue[f] + d])
  }

  function AddDest(t: Tables, up: bool, f: int, d: int): Tables
    requires 0 <= f < |DestTable(t, up)|
  {
    if up then t.(upToQueue := t.upToQueue[f := t.upToQueue[f] + d])
    else t.(downToQueue := t.downToQueue[f := t.downToQueue[f] + d])
  }

  // ---------------------------------------------------------------- the person

  predicate OnFloors(p: Person, numFloors: int) {
    1 <= p.at <= numFloors && 1 <= p.to <= numFloors
  }

  predicate PersonEnabled(s: State, i: int) {
    && i in s.people
    && match s.people[i].phase
       case AtLoop => s.lock.None?
       case Woken => s.lock.None?
       case Arrived => !CounterKept(s.boss.stage)
       case Waiting => false
       case Gone => false
       case _ => true
  }

  datatype Choice = SameFloor | Board | Leave | Stay

  /** The branch taken by a person who holds e after waiting. */
  function Choose(car: Car, p: Person): Choice {
    var readyEnter := car.floor == p.at;
    var readyLeave := car.floor == p.to;
    var capacity := car.numPeopleIn < CAPACITY;
    var direction := GoingUp(p) == car.movingUp;
    if p.at == p.to && readyEnter then SameFloor
    else if !p.riding && readyEnter && direction && capacity then Board
    else if p.riding && readyLeave then Leave
    else Stay
  }

  /** Where a step leaves the person who takes it. */
  function PersonAfter(car: Car, p: Person): Person {
    match p.phase
    case Born => p.(phase := AtLoop)
    case AtLoop => p.(phase := Entering)
    case Entering => p.(phase := Waiting)
    case Woken => p.(phase := Deciding)
    case Deciding =>
      (match Choose(car, p)
       case SameFloor => p.(phase := Arrived)
       case Board => p.(phase := BoardCount)
       case Leave => p.(phase := LeaveCount)
       case Stay => p.(phase := Decided))
    case BoardCount => p.(riding := true, phase := Decided)
    case LeaveCount => p.(phase := Arrived)
    case Decided => p.(phase := AtLoop)
    case Arrived => p.(phase := Leaving)
    case Leaving => p.(phase := Gone)
    case _ => p
  }

  /** Buttons pressed and taken back in the step. */
  function TablesAfter(car: Car, t: Tables, p: Person, numFloors: int): Tables
    requires Shaped(t, numFloors) && OnFloors(p, numFloors)
  {
    match p.phase
    case Born => AddWait(t, GoingUp(p), p.at, 1)
    case Deciding =>
      (match Choose(car, p)
       case SameFloor => AddWait(t, true, p.at, -1)
       case Board => AddWait(AddDest(t, GoingUp(p), p.to, 1), GoingUp(p), p.at, -1)
       case Leave => AddDest(t, GoingUp(p), p.to, -1)
       case Stay => t)
    case _ => t
  }

  function CarAfter(car: Car, p: Person): Car {
    match p.phase
    case BoardCount => car.(numPeopleIn := car.numPeopleIn + 1)
    case LeaveCount => car.(numPeopleIn := car.numPeopleIn - 1)
    case _ => car
  }

  function LockAfter(lock: Option<Actor>, i: int, p: Person): Option<Actor> {
    match p.phase
    case AtLoop => Some(ByPerson(i))
    case Woken => Some(ByPerson(i))
    case Entering => None
    case Decided => None
    case Leaving => None
    case _ => lock
  }

  function PersonStep(s: State, i: int): State
    requires PersonEnabled(s, i) && Shaped(s.tables, s.numFloors) && OnFloors(s.people[i], s.numFloors)
  {
    var p := s.people[i];
    State(s.numFloors, CarAfter(s.car, p), TablesAfter(s.car, s.tables, p, s.numFloors),
          if p.phase == Arrived then s.count + 1 else s.count, LockAfter(s.lock, i, p),
          s.people[i := PersonAfter(s.car, p)], s.boss)
  }

  // ---------------------------------------------------------------- the manager

  predicate ManagerEnabled(s: State) {
    match s.boss.stage
    case MStart => s.lock.None?
    case MWant => s.lock.None?
    case MWantMove => s.lock.None?
    case MStopped => false
    case _ => true
  }

  /** The branches of Manager: on an end floor the elevator turns and serves those who arrive at that end. */
  function ChooseDirection(s: State): State {
    if s.car.floor == 1 then s.(car := s.car.(movingUp := true), boss := s.boss.(outUp := false, stage := MScan))
    else if s.car.floor == s.numFloors then
      s.(car := s.car.(movingUp := false), boss := s.boss.(outUp := true, stage := MScan))
    else s.(boss := s.boss.(outUp := s.car.movingUp, stage := MScan))
  }

  /** Looks at the tables of this floor. */
  function Look(s: State, next: Stage): Boss
    requires Shaped(s.tables, s.numFloors) && 0 <= s.car.floor <= s.numFloors
  {
    s.boss.(getIn := WaitTable(s.tables, s.car.movingUp)[s.car.floor] > 0 && s.car.numPeopleIn < CAPACITY,
            getOut := DestTable(s.tables, s.boss.outUp)[s.car.floor] > 0, stage := next)
  }

  function Broadcast(people: map<int, Person>): map<int, Person> {
    map i | i in people :: if people[i].phase == Waiting then people[i].(phase := Woken) else people[i]
  }

  function ManagerStep(s: State): State
    requires ManagerEnabled(s) && Shaped(s.tables, s.numFloors) && 0 <= s.car.floor <= s.numFloors
  {
    var b := s.boss;
    match b.stage
    case MStart => s.(lock := Some(Manager), boss := b.(stage := MTop))
    case MTop => ChooseDirection(s)
    case MScan => s.(lock := None, boss := Look(s, MTest))
    case MTest => s.(boss := b.(stage := if b.getIn || b.getOut then MWant else MWantMove))
    case MWant => s.(lock := Some(Manager), boss := b.(stage := MCheck))
    case MCheck => s.(people := Broadcast(s.people), boss := Look(s, MChecked))
    case MChecked => s.(lock := None, boss := b.(stage := MTest))
    case MWantMove => s.(lock := Some(Manager), boss := b.(stage := MMove))
    case MMove =>
      s.(car := s.car.(floor := if s.car.movingUp then s.car.floor + 1 else s.car.floor - 1),
         boss := b.(stage := MCount))
    case MCount => s.(boss := b.(stage := if |s.people| == s.count then MBreak else MTop))
    case MBreak => s.(lock := None, boss := b.(stage := MStopped))
  }

  // ---------------------------------------------------------------- runs

  datatype Action = Arrive(id: int, at: int, to: int) | PersonActs(id: int) | ManagerActs

  /** The state is one on which the steps are defined. */
  ghost predicate Defined(s: State) {
    && Shaped(s.tables, s.numFloors) && 0 <= s.car.floor <= s.numFloors
    && forall i :: i in s.people ==> OnFloors(s.people[i], s.numFloors)
  }

  predicate Enabled(s: State, a: Action) {
    match a
    case Arrive(i, at, to) =>
      !CounterKept(s.boss.stage) && i !in s.people && 1 <= at <= s.numFloors && 1 <= to <= s.numFloors
    case PersonActs(i) => PersonEnabled(s, i)
    case ManagerActs => ManagerEnabled(s)
  }

  ghost function Next(s: State, a: Action): State
    requires Defined(s) && Enabled(s, a)
  {
    match a
    case Arrive(i, at, to) => s.(people := s.people[i := Person(at, to, false, Born)])
    case PersonActs(i) => PersonStep(s, i)
    case ManagerActs => ManagerStep(s)
  }

  /** After Elevator(numFloors): an empty elevator on the ground floor. */
  function Initial(numFloors: nat): State {
    var zeros := seq(numFloors + 1, _ => 0);
    State(numFloors, Car(1, true, 0), Tables(zeros, zeros, zeros, zeros), 0, None, map[],
          Boss(MStart, false, false, false))
  }

  // ---------------------------------------------------------------- counting people

  /** What a person may be counted as. */
  datatype Role = WaitsAt(up: bool, f: int) | RidesTo(up: bool, f: int) | CountedIn | Served

  predicate Plays(p: Person, r: Role) {
    match r
    case WaitsAt(up, f) => IsWaiting(p) && GoingUp(p) == up && p.at == f
    case RidesTo(up, f) => IsRiding(p) && GoingUp(p) == up && p.to == f
    case CountedIn => IsCounted(p)
    case Served => p.phase.Leaving? || p.phase.Gone?
  }

  ghost function Members(people: map<int, Person>, r: Role): set<int> {
    set i | i in people && Plays(people[i], r)
  }

  /** How one person's change shows in a head count. */
  lemma HeadCount(people: map<int, Person>, i: int, p: Person, r: Role)
    ensures |Members(people[i := p], r)| ==
            |Members(people, r)| + One(Plays(p, r)) - One(i in people && Plays(people[i], r))
  {
    OneDiffers(Members(people, r), Members(people[i := p], r), i);
  }

  lemma BroadcastKeepsMembers(people: map<int, Person>, r: Role)
    ensures Members(Broadcast(people), r) == Members(people, r)
  {
    forall i | i in people
      ensures Plays(Broadcast(people)[i], r) == Plays(people[i], r)
    {
    }
  }

  function Sum(xs: seq<int>): int {
    if xs == [] then 0 else Sum(xs[..|xs| - 1]) + xs[|xs| - 1]
  }

  lemma {:induction false} SumUpdate(xs: seq<int>, f: nat, d: int)
    requires f < |xs|
    ensures Sum(xs[f := xs[f] + d]) == Sum(xs) + d
  {
    var ys := xs[f := xs[f] + d];
    if f < |xs| - 1 {
      SumUpdate(xs[..|xs| - 1], f, d);
      assert ys[..|xs| - 1] == xs[..|xs| - 1][f := xs[f] + d];
    } else {
      assert ys[..|xs| - 1] == xs[..|xs| - 1];
    }
  }

  lemma {:induction false} SumZero(n: nat)
    ensures Sum(seq(n, _ => 0)) == 0
  {
    if n > 0 {
      SumZero(n - 1);
      assert seq(n, _ => 0)[..n - 1] == seq(n - 1, _ => 0);
    }
  }

  // ---------------------------------------------------------------- the invariant

  /** The table entries of floor f count exactly the people waiting there and the people riding there. */
  ghost predicate EntriesCount(t: Tables, people: map<int, Person>, up: bool, f: int)
    requires 0 <= f < |WaitTable(t, up)| && f < |DestTable(t, up)|
  {
    && WaitTable(t, up)[f] == |Members(people, WaitsAt(up, f))|
    && DestTable(t, up)[f] == |Members(people, RidesTo(up, f))|
  }

  ghost predicate TablesCount(s: State) {
    && Shaped(s.tables, s.numFloors)
    && (forall up, f :: 1 <= f <= s.numFloors ==> EntriesCount(s.tables, s.people, up, f))
    && s.car.numPeopleIn == |Members(s.people, CountedIn)|
    && s.count == |Members(s.people, Served)|
    && (CounterKept(s.boss.stage) ==> s.count == |s.people|)
  }

  /** A boarder or leaver between the tables and the head count. */
  function Pending(s: State): int {
    if s.lock.Some? && s.lock.value.ByPerson? && s.lock.value.id in s.people then
      match s.people[s.lock.value.id].phase
      case BoardCount => 1
      case LeaveCount => -1
      case _ => 0
    else 0
  }

  ghost predicate Sums(s: State) {
    && DestSum(s.tables) == s.car.numPeopleIn + Pending(s)
    && s.car.numPeopleIn <= CAPACITY && s.car.numPeopleIn + Pending(s) <= CAPACITY
  }

  ghost predicate LockInv(s: State) {
    && (s.lock == Some(Manager) <==> ManagerHolds(s.boss.stage))
    && (forall i :: s.lock == Some(ByPerson(i)) <==> i in s.people && HoldsLock(s.people[i]))
  }

  /** The rider goes the elevator's way and the destination is strictly ahead. */
  predicate Ahead(car: Car, p: Person) {
    GoingUp(p) == car.movingUp && (if car.movingUp then p.to > car.floor else p.to < car.floor)
  }

  /** The rider goes the elevator's way and the destination is this floor or ahead. */
  predicate AtOrAhead(car: Car, p: Person) {
    GoingUp(p) == car.movingUp && (if car.movingUp then p.to >= car.floor else p.to <= car.floor)
  }

  predicate Travelling(m: Stage) {
    m.MCount? || m.MTop? || m.MBreak? || m.MStopped?
  }

  predicate Serving(m: Stage) {
    m.MScan? || m.MTest? || m.MWant? || m.MCheck? || m.MChecked? || m.MWantMove? || m.MMove?
  }

  /** The last look at the tables is the one that decides whether to leave. */
  predicate Looked(m: Stage) {
    m.MTest? || m.MChecked? || m.MWantMove? || m.MMove?
  }

  ghost predicate FloorInv(s: State) {
    var car, b := s.car, s.boss;
    && 1 <= car.floor <= s.numFloors
    && (Serving(b.stage) ==> if car.movingUp then car.floor < s.numFloors else car.floor > 1)
    && (Travelling(b.stage) && !car.movingUp ==> car.floor < s.numFloors)
    && (Travelling(b.stage) && car.movingUp ==>
          car.floor > 1 || (b.stage.MTop? && forall i :: i in s.people ==> !IsRiding(s.people[i])))
    && (b.stage.MWantMove? || b.stage.MMove? ==> !b.getOut)
    && (b.stage.MStart? ==> car.floor == 1 && car.movingUp && forall i :: i in s.people ==> Early(s.people[i]))
  }

  /** Nobody has been served before the manager's first round. */
  predicate Early(p: Person) {
    (p.phase.Born? || p.phase.AtLoop? || p.phase.Entering? || p.phase.Waiting?) && !p.riding
  }

  /** What holds of every person, by the manager's stage. */
  predicate PersonInv(car: Car, b: Boss, p: Person) {
    && (p.phase.Born? ==> !p.riding)
    && (p.riding || p.phase.BoardCount? ==> p.at != p.to)
    && (IsRiding(p) && Serving(b.stage) ==> Ahead(car, p) || (p.to == car.floor && GoingUp(p) == b.outUp))
    && (IsRiding(p) && Looked(b.stage) && !b.getOut ==> Ahead(car, p))
    && (IsRiding(p) && Travelling(b.stage) ==> AtOrAhead(car, p))
    && (IsRiding(p) ==> !b.stage.MStart?)
    && (GetsOut(p) ==> p.to == car.floor)
  }

  ghost predicate Inv(s: State) {
    && s.numFloors >= 2 && Defined(s)
    && TablesCount(s) && Sums(s) && LockInv(s) && FloorInv(s)
    && (forall i :: i in s.people ==> PersonInv(s.car, s.boss, s.people[i]))
  }

  // ---------------------------------------------------------------- the tables stay exact

  lemma AddWaitAt(t: Tables, up: bool, f: int, d: int, u: bool, g: int)
    requires 0 <= f < |WaitTable(t, up)| && 0 <= g < |WaitTable(t, u)|
    ensures WaitTable(AddWait(t, up, f, d), u)[g] == WaitTable(t, u)[g] + (if u == up && g == f then d else 0)
    ensures DestTable(AddWait(t, up, f, d), u) == DestTable(t, u)
  {
  }

  lemma AddDestAt(t: Tables, up: bool, f: int, d: int, u: bool, g: int)
    requires 0 <= f < |DestTable(t, up)| && 0 <= g < |DestTable(t, u)|
    ensures DestTable(AddDest(t, up, f, d), u)[g] == DestTable(t, u)[g] + (if u == up && g == f then d else 0)
    ensures WaitTable(AddDest(t, up, f, d), u) == WaitTable(t, u)
  {
  }

  /** How a person's step changes the roles counted in the tables. */
  function WaitChange(car: Car, p: Person, up: bool, f: int): int {
    One(Plays(PersonAfter(car, p), WaitsAt(up, f))) - One(Plays(p, WaitsAt(up, f)))
  }

  function DestChange(car: Car, p: Person, up: bool, f: int): int {
    One(Plays(PersonAfter(car, p), RidesTo(up, f))) - One(Plays(p, RidesTo(up, f)))
  }

  /** One wait entry gains a newcomer and loses whoever boards or has arrived already. */
  lemma WaitChanges(car: Car, p: Person, up: bool, f: int)
    requires p.phase.Born? ==> !p.riding
    requires p.riding ==> p.at != p.to
    ensures WaitChange(car, p, up, f) ==
            if GoingUp(p) == up && p.at == f then
              One(p.phase.Born?) - One(p.phase.Deciding? && (Choose(car, p).SameFloor? || Choose(car, p).Board?))
            else 0
  {
  }

  /** One destination entry gains whoever boards and loses whoever leaves. */
  lemma DestChanges(car: Car, p: Person, up: bool, f: int)
    requires p.phase.Born? ==> !p.riding
    requires p.riding ==> p.at != p.to
    ensures DestChange(car, p, up, f) ==
            if GoingUp(p) == up && p.to == f then
              One(p.phase.Deciding? && Choose(car, p).Board?) - One(p.phase.Deciding? && Choose(car, p).Leave?)
            else 0
  {
  }

  /** The entries of floor f after the step are the old ones plus what the step changes in the roles counted there. */
  ghost predicate EntriesMove(car: Car, t: Tables, p: Person, n: int, up: bool, f: int)
    requires Shaped(t, n) && OnFloors(p, n) && 1 <= f <= n
  {
    var t' := TablesAfter(car, t, p, n);
    && Shaped(t', n)
    && WaitTable(t', up)[f] == WaitTable(t, up)[f] + WaitChange(car, p, up, f)
    && DestTable(t', up)[f] == DestTable(t, up)[f] + DestChange(car, p, up, f)
  }

  lemma EntriesAtBirth(car: Car, t: Tables, p: Person, n: int, up: bool, f: int)
    requires Shaped(t, n) && OnFloors(p, n) && 1 <= f <= n && p.phase.Born? && !p.riding
    ensures EntriesMove(car, t, p, n, up, f)
  {
    WaitChanges(car, p, up, f);
    DestChanges(car, p, up, f);
    AddWaitAt(t, GoingUp(p), p.at, 1, up, f);
  }

  lemma EntriesAtBoarding(car: Car, t: Tables, p: Person, n: int, up: bool, f: int)
    requires Shaped(t, n) && OnFloors(p, n) && 1 <= f <= n
    requires p.phase.Deciding? && Choose(car, p).Board?
    ensures EntriesMove(car, t, p, n, up, f)
  {
    WaitChanges(car, p, up, f);
    DestChanges(car, p, up, f);
    AddDestAt(t, GoingUp(p), p.to, 1, up, f);
    AddWaitAt(AddDest(t, GoingUp(p), p.to, 1), GoingUp(p), p.at, -1, up, f);
  }

  lemma EntriesAtLeaving(car: Car, t: Tables, p: Person, n: int, up: bool, f: int)
    requires Shaped(t, n) && OnFloors(p, n) && 1 <= f <= n && (p.riding ==> p.at != p.to)
    requires p.phase.Deciding? && Choose(car, p).Leave?
    ensures EntriesMove(car, t, p, n, up, f)
  {
    WaitChanges(car, p, up, f);
    DestChanges(car, p, up, f);
    AddDestAt(t, GoingUp(p), p.to, -1, up, f);
  }

  lemma EntriesAtSameFloor(car: Car, t: Tables, p: Person, n: int, up: bool, f: int)
    requires Shaped(t, n) && OnFloors(p, n) && 1 <= f <= n && (p.riding ==> p.at != p.to)
    requires p.phase.Deciding? && Choose(car, p).SameFloor?
    ensures EntriesMove(car, t, p, n, up, f)
  {
    WaitChanges(car, p, up, f);
    DestChanges(car, p, up, f);
    AddWaitAt(t, true, p.at, -1, up, f);
  }

  lemma EntriesElsewhere(car: Car, t: Tables, p: Person, n: int, up: bool, f: int)
    requires Shaped(t, n) && OnFloors(p, n) && 1 <= f <= n && (p.riding ==> p.at != p.to)
    requires !p.phase.Born? && (p.phase.Deciding? ==> Choose(car, p).Stay?)
    ensures EntriesMove(car, t, p, n, up, f)
  {
    WaitChanges(car, p, up, f);
    DestChanges(car, p, up, f);
    assert TablesAfter(car, t, p, n) == t;
  }

  /** The table entries of floor f change by exactly what the person's step changes in the roles counted there. */
  lemma EntriesFollow(car: Car, t: Tables, p: Person, n: int, up: bool, f: int)
    requires Shaped(t, n) && OnFloors(p, n) && 1 <= f <= n
    requires p.phase.Born? ==> !p.riding
    requires p.riding ==> p.at != p.to
    ensures EntriesMove(car, t, p, n, up, f)
  {
    if p.phase.Born? {
      EntriesAtBirth(car, t, p, n, up, f);
    } else if p.phase.Deciding? {
      match Choose(car, p) {
        case SameFloor => EntriesAtSameFloor(car, t, p, n, up, f);
        case Board => EntriesAtBoarding(car, t, p, n, up, f);
        case Leave => EntriesAtLeaving(car, t, p, n, up, f);
        case Stay => EntriesElsewhere(car, t, p, n, up, f);
      }
    } else {
      EntriesElsewhere(car, t, p, n, up, f);
    }
  }

  lemma PersonKeepsEntries(s: State, i: int, up: bool, f: int)
    requires PersonEnabled(s, i) && OnFloors(s.people[i], s.numFloors) && Shaped(s.tables, s.numFloors)
    requires 1 <= f <= s.numFloors && EntriesCount(s.tables, s.people, up, f)
    requires PersonInv(s.car, s.boss, s.people[i])
    ensures
      var s' := PersonStep(s, i);
      Shaped(s'.tables, s.numFloors) && EntriesCount(s'.tables, s'.people, up, f)
  {
    var p := s.people[i];
    EntriesFollow(s.car, s.tables, p, s.numFloors, up, f);
    HeadCount(s.people, i, PersonAfter(s.car, p), WaitsAt(up, f));
    HeadCount(s.people, i, PersonAfter(s.car, p), RidesTo(up, f));
  }

  lemma PersonKeepsTables(s: State, i: int)
    requires PersonEnabled(s, i) && OnFloors(s.people[i], s.numFloors) && TablesCount(s)
    requires PersonInv(s.car, s.boss, s.people[i])
    ensures TablesCount(PersonStep(s, i))
  {
    var p, s' := s.people[i], PersonStep(s, i);
    forall up, f | 1 <= f <= s.numFloors
      ensures Shaped(s'.tables, s.numFloors) && EntriesCount(s'.tables, s'.people, up, f)
    {
      assert EntriesCount(s.tables, s.people, up, f);
      PersonKeepsEntries(s, i, up, f);
    }
    assert Shaped(s'.tables, s.numFloors) by {
      PersonKeepsEntries(s, i, true, p.at);
    }
    HeadCount(s.people, i, PersonAfter(s.car, p), CountedIn);
    HeadCount(s.people, i, PersonAfter(s.car, p), Served);
  }

  // ---------------------------------------------------------------- a person's step keeps the rest

  /** What a person's step does to the destination tables. */
  function DestDelta(car: Car, p: Person): int {
    One(p.phase.Deciding? && Choose(car, p).Board?) - One(p.phase.Deciding? && Choose(car, p).Leave?)
  }

  function DestSum(t: Tables): int {
    Sum(t.upToQueue) + Sum(t.downToQueue)
  }

  lemma AddDestSum(t: Tables, up: bool, f: int, d: int)
    requires 0 <= f < |DestTable(t, up)|
    ensures DestSum(AddDest(t, up, f, d)) == DestSum(t) + d
  {
    SumUpdate(DestTable(t, up), f, d);
  }

  lemma PersonMovesSum(car: Car, t: Tables, p: Person, n: int)
    requires Shaped(t, n) && OnFloors(p, n)
    ensures DestSum(TablesAfter(car, t, p, n)) == DestSum(t) + DestDelta(car, p)
  {
    if p.phase.Deciding? {
      match Choose(car, p) {
        case Board => AddDestSum(t, GoingUp(p), p.to, 1);
        case Leave => AddDestSum(t, GoingUp(p), p.to, -1);
        case _ =>
      }
    }
  }

  lemma PersonMovesPending(s: State, i: int)
    requires PersonEnabled(s, i) && OnFloors(s.people[i], s.numFloors) && Shaped(s.tables, s.numFloors)
    requires LockInv(s)
    requires s.car.numPeopleIn <= CAPACITY && s.car.numPeopleIn + Pending(s) <= CAPACITY
    ensures
      var s' := PersonStep(s, i);
      && s'.car.numPeopleIn + Pending(s') == s.car.numPeopleIn + Pending(s) + DestDelta(s.car, s.people[i])
      && s'.car.numPeopleIn <= CAPACITY && s'.car.numPeopleIn + Pending(s') <= CAPACITY
  {
    match s.people[i].phase
    case BoardCount =>
    case LeaveCount =>
    case Deciding =>
    case _ =>
  }

  lemma PersonKeepsSums(s: State, i: int)
    requires PersonEnabled(s, i) && OnFloors(s.people[i], s.numFloors) && Shaped(s.tables, s.numFloors)
    requires Sums(s) && LockInv(s)
    ensures Sums(PersonStep(s, i))
  {
    PersonMovesSum(s.car, s.tables, s.people[i], s.numFloors);
    PersonMovesPending(s, i);
  }

  lemma PersonKeepsLock(s: State, i: int)
    requires PersonEnabled(s, i) && OnFloors(s.people[i], s.numFloors) && Shaped(s.tables, s.numFloors) && LockInv(s)
    ensures LockInv(PersonStep(s, i))
  {
  }

  /** Boarding puts the destination strictly ahead; no other step of a person makes a rider. */
  lemma PersonKeepsPersonInv(s: State, i: int)
    requires PersonEnabled(s, i) && LockInv(s) && FloorInv(s) && PersonInv(s.car, s.boss, s.people[i])
    requires s.boss.stage.MStart? ==> Early(s.people[i])
    ensures
      var p' := PersonAfter(s.car, s.people[i]);
      PersonInv(s.car, s.boss, p') && (s.boss.stage.MStart? ==> Early(p'))
    ensures s.boss.stage.MTop? && !IsRiding(s.people[i]) ==> !IsRiding(PersonAfter(s.car, s.people[i]))
  {
  }

  lemma PersonKeepsFloor(s: State, i: int)
    requires PersonEnabled(s, i) && Defined(s) && LockInv(s) && FloorInv(s)
    requires PersonInv(s.car, s.boss, s.people[i])
    ensures FloorInv(PersonStep(s, i))
  {
    PersonKeepsPersonInv(s, i);
  }

  lemma PersonKeepsPeople(s: State, i: int, j: int)
    requires PersonEnabled(s, i) && Defined(s) && LockInv(s) && FloorInv(s) && j in s.people
    requires PersonInv(s.car, s.boss, s.people[i]) && PersonInv(s.car, s.boss, s.people[j])
    ensures
      var s' := PersonStep(s, i);
      OnFloors(s'.people[j], s.numFloors) && PersonInv(s'.car, s'.boss, s'.people[j])
  {
    PersonKeepsPersonInv(s, i);
  }

  lemma PersonKeepsInv(s: State, i: int)
    requires Inv(s) && PersonEnabled(s, i)
    ensures Inv(PersonStep(s, i))
  {
    PersonKeepsTables(s, i);
    PersonKeepsSums(s, i);
    PersonKeepsLock(s, i);
    PersonKeepsFloor(s, i);
    forall j | j in s.people
      ensures
        var s' := PersonStep(s, i);
        OnFloors(s'.people[j], s.numFloors) && PersonInv(s'.car, s'.boss, s'.people[j])
    {
      PersonKeepsPeople(s, i, j);
    }
  }

  // ---------------------------------------------------------------- the manager's step

  /** The new stage and floor are right for every rider: the heart of the protocol. */
  lemma ManagerKeepsPersonInv(s: State, p: Person)
    requires ManagerEnabled(s) && Shaped(s.tables, s.numFloors) && FloorInv(s) && s.numFloors >= 2
    requires PersonInv(s.car, s.boss, p) && OnFloors(p, s.numFloors)
    requires ManagerHolds(s.boss.stage) ==> !HoldsLock(p)
    requires s.boss.stage.MTop? && s.car.movingUp && s.car.floor == 1 ==> !IsRiding(p)
    requires IsRiding(p) && p.to == s.car.floor && GoingUp(p) == s.boss.outUp ==>
               DestTable(s.tables, s.boss.outUp)[s.car.floor] > 0
    ensures PersonInv(ManagerStep(s).car, ManagerStep(s).boss, p)
  {
    match s.boss.stage
    case MTop =>
    case MScan =>
    case MCheck =>
    case MMove =>
    case _ =>
  }

  lemma ManagerKeepsFloor(s: State)
    requires ManagerEnabled(s) && Shaped(s.tables, s.numFloors) && FloorInv(s) && s.numFloors >= 2
    requires forall i :: i in s.people ==> PersonInv(s.car, s.boss, s.people[i])
    ensures FloorInv(ManagerStep(s))
  {
    var s' := ManagerStep(s);
    if s.boss.stage.MCheck? {
      assert forall i :: i in s'.people ==> i in s.people;
    }
  }

  /** Somebody who rides to this floor shows in the table. */
  lemma RiderShows(s: State, i: int, up: bool)
    requires TablesCount(s) && i in s.people && 1 <= s.car.floor <= s.numFloors
    requires Plays(s.people[i], RidesTo(up, s.car.floor))
    ensures DestTable(s.tables, up)[s.car.floor] > 0
  {
    assert EntriesCount(s.tables, s.people, up, s.car.floor);
    assert i in Members(s.people, RidesTo(up, s.car.floor));
  }

  lemma ManagerKeepsTables(s: State)
    requires ManagerEnabled(s) && TablesCount(s) && 0 <= s.car.floor <= s.numFloors
    ensures TablesCount(ManagerStep(s))
  {
    var s' := ManagerStep(s);
    if s.boss.stage.MCheck? {
      forall up, f | 1 <= f <= s.numFloors
        ensures EntriesCount(s'.tables, s'.people, up, f)
      {
        assert EntriesCount(s.tables, s.people, up, f);
        BroadcastKeepsMembers(s.people, WaitsAt(up, f));
        BroadcastKeepsMembers(s.people, RidesTo(up, f));
      }
      BroadcastKeepsMembers(s.people, CountedIn);
      BroadcastKeepsMembers(s.people, Served);
    }
  }

  lemma ManagerKeepsLock(s: State)
    requires ManagerEnabled(s) && Shaped(s.tables, s.numFloors) && 0 <= s.car.floor <= s.numFloors
    requires LockInv(s)
    ensures LockInv(ManagerStep(s))
  {
    var s' := ManagerStep(s);
    forall i
      ensures i in s'.people && HoldsLock(s'.people[i]) <==> i in s.people && HoldsLock(s.people[i])
    {
    }
  }

  lemma ManagerKeepsSums(s: State)
    requires ManagerEnabled(s) && Shaped(s.tables, s.numFloors) && 0 <= s.car.floor <= s.numFloors
    requires LockInv(s) && Sums(s)
    ensures Sums(ManagerStep(s))
  {
    assert s.lock == Some(Manager) || s.lock.None? ==> Pending(s) == 0 && Pending(ManagerStep(s)) == 0;
  }

  lemma ManagerKeepsPeople(s: State, i: int)
    requires Inv(s) && ManagerEnabled(s) && i in s.people
    ensures PersonInv(ManagerStep(s).car, ManagerStep(s).boss, s.people[i])
  {
    var p := s.people[i];
    if Plays(p, RidesTo(s.boss.outUp, s.car.floor)) {
      RiderShows(s, i, s.boss.outUp);
    }
    ManagerKeepsPersonInv(s, p);
  }

  /** Being woken changes nothing that is said of a person. */
  lemma ManagerWakes(s: State, i: int)
    requires ManagerEnabled(s) && Shaped(s.tables, s.numFloors) && 0 <= s.car.floor <= s.numFloors
    requires i in s.people
    requires PersonInv(ManagerStep(s).car, ManagerStep(s).boss, s.people[i]) && OnFloors(s.people[i], s.numFloors)
    ensures ManagerStep(s).people.Keys == s.people.Keys
    ensures
      var s' := ManagerStep(s);
      PersonInv(s'.car, s'.boss, s'.people[i]) && OnFloors(s'.people[i], s.numFloors)
  {
  }

  lemma ManagerKeepsInv(s: State)
    requires Inv(s) && ManagerEnabled(s)
    ensures Inv(ManagerStep(s))
  {
    var s' := ManagerStep(s);
    ManagerKeepsTables(s);
    ManagerKeepsLock(s);
    ManagerKeepsFloor(s);
    ManagerKeepsSums(s);
    forall i | i in s.people
      ensures i in s'.people && OnFloors(s'.people[i], s.numFloors) && PersonInv(s'.car, s'.boss, s'.people[i])
      ensures s'.people.Keys == s.people.Keys
    {
      ManagerKeepsPeople(s, i);
      ManagerWakes(s, i);
    }
  }

  lemma ArriveKeepsInv(s: State, i: int, at: int, to: int)
    requires Inv(s) && Enabled(s, Arrive(i, at, to))
    ensures Inv(Next(s, Arrive(i, at, to)))
  {
    var p, s' := Person(at, to, false, Born), Next(s, Arrive(i, at, to));
    forall up, f | 1 <= f <= s.numFloors
      ensures EntriesCount(s'.tables, s'.people, up, f)
    {
      assert EntriesCount(s.tables, s.people, up, f);
      HeadCount(s.people, i, p, WaitsAt(up, f));
      HeadCount(s.people, i, p, RidesTo(up, f));
    }
    HeadCount(s.people, i, p, CountedIn);
    HeadCount(s.people, i, p, Served);
    assert LockInv(s') && Sums(s');
  }

  // ---------------------------------------------------------------- whole runs

  /** One step of a run. */
  ghost predicate RunsOn(s: State, a: Action, s': State) {
    Enabled(s, a) && (Defined(s) ==> s' == Next(s, a))
  }

  ghost predicate Run(states: seq<State>, actions: seq<Action>, numFloors: nat) {
    && |states| == |actions| + 1 && states[0] == Initial(numFloors)
    && forall n :: 0 <= n < |actions| ==> RunsOn(states[n], actions[n], states[n + 1])
  }

  lemma InitialInv(numFloors: nat)
    requires numFloors >= 2
    ensures Inv(Initial(numFloors))
  {
    var s := Initial(numFloors);
    SumZero(numFloors + 1);
    forall up, f | 1 <= f <= numFloors
      ensures EntriesCount(s.tables, s.people, up, f)
    {
      assert Members(s.people, WaitsAt(up, f)) == {} && Members(s.people, RidesTo(up, f)) == {};
    }
    assert Members(s.people, CountedIn) == {} && Members(s.people, Served) == {};
  }

  lemma {:induction false} RunKeepsInv(states: seq<State>, actions: seq<Action>, numFloors: nat, n: nat)
    requires Run(states, actions, numFloors) && numFloors >= 2 && n < |states|
    ensures Inv(states[n])
  {
    if n == 0 {
      InitialInv(numFloors);
    } else {
      RunKeepsInv(states, actions, numFloors, n - 1);
      assert RunsOn(states[n - 1], actions[n - 1], states[n]);
      match actions[n - 1]
      case Arrive(i, at, to) => ArriveKeepsInv(states[n - 1], i, at, to);
      case PersonActs(i) => PersonKeepsInv(states[n - 1], i);
      case ManagerActs => ManagerKeepsInv(states[n - 1]);
    }
  }

  /** Whenever the lock is free: the floor is in range, the elevator is not overfull, the head count is the sum of the
      destination tables, and every table entry counts exactly the people it stands for. */
  lemma FreeLockState(states: seq<State>, actions: seq<Action>, numFloors: nat, n: nat)
    requires Run(states, actions, numFloors) && numFloors >= 2 && n < |states| && states[n].lock.None?
    ensures
      var s := states[n];
      && 1 <= s.car.floor <= numFloors && 0 <= s.car.numPeopleIn <= 5
      && s.car.numPeopleIn == Sum(s.tables.upToQueue) + Sum(s.tables.downToQueue)
      && Shaped(s.tables, numFloors)
      && (forall up, f :: 1 <= f <= numFloors ==> WaitTable(s.tables, up)[f] == |Members(s.people, WaitsAt(up, f))|)
      && (forall up, f :: 1 <= f <= numFloors ==> DestTable(s.tables, up)[f] == |Members(s.people, RidesTo(up, f))|)
  {
    RunKeepsInv(states, actions, numFloors, n);
    RunKeepsFloors(states, actions, numFloors, n);
    var s := states[n];
    forall up, f | 1 <= f <= numFloors
      ensures WaitTable(s.tables, up)[f] == |Members(s.people, WaitsAt(up, f))|
      ensures DestTable(s.tables, up)[f] == |Members(s.people, RidesTo(up, f))|
    {
      assert EntriesCount(s.tables, s.people, up, f);
    }
  }

  lemma {:induction false} RunKeepsFloors(states: seq<State>, actions: seq<Action>, numFloors: nat, n: nat)
    requires Run(states, actions, numFloors) && numFloors >= 2 && n < |states|
    ensures states[n].numFloors == numFloors
  {
    if n > 0 {
      RunKeepsInv(states, actions, numFloors, n - 1);
      RunKeepsFloors(states, actions, numFloors, n - 1);
      assert RunsOn(states[n - 1], actions[n - 1], states[n]);
    }
  }

  /** When the elevator leaves a floor, every rider goes its way and has a destination strictly ahead. */
  lemma LeavesWithRidersAhead(states: seq<State>, actions: seq<Action>, numFloors: nat, n: nat, i: int)
    requires Run(states, actions, numFloors) && numFloors >= 2 && n < |states|
    requires states[n].boss.stage.MMove? && i in states[n].people && IsRiding(states[n].people[i])
    ensures Ahead(states[n].car, states[n].people[i])
  {
    RunKeepsInv(states, actions, numFloors, n);
    assert PersonInv(states[n].car, states[n].boss, states[n].people[i]);
  }

  /** Nobody is ever carried past the floor they want. */
  lemma NobodyCarriedPast(states: seq<State>, actions: seq<Action>, numFloors: nat, n: nat, i: int)
    requires Run(states, actions, numFloors) && numFloors >= 2 && n < |states|
    requires i in states[n].people && IsRiding(states[n].people[i])
    ensures
      var p, floor := states[n].people[i], states[n].car.floor;
      if GoingUp(p) then floor <= p.to else floor >= p.to
  {
    RunKeepsInv(states, actions, numFloors, n);
    assert PersonInv(states[n].car, states[n].boss, states[n].people[i]);
  }

  /** The manager stops only when everybody who asked has been brought to their floor. */
  lemma StopsWhenAllServed(states: seq<State>, actions: seq<Action>, numFloors: nat, n: nat, i: int)
    requires Run(states, actions, numFloors) && numFloors >= 2 && n < |states|
    requires states[n].boss.stage.MStopped? && i in states[n].people
    ensures states[n].people[i].phase.Leaving? || states[n].people[i].phase.Gone?
  {
    RunKeepsInv(states, actions, numFloors, n);
    var people := states[n].people;
    SubsetSize(Members(people, Served), people.Keys);
    assert i in Members(people, Served);
  }

  /** Whoever gets out is on the floor they wanted. */
  lemma GetsOutAtDestination(states: seq<State>, actions: seq<Action>, numFloors: nat, n: nat, i: int)
    requires Run(states, actions, numFloors) && numFloors >= 2 && n < |states|
    requires i in states[n].people && GetsOut(states[n].people[i])
    ensures states[n].car.floor == states[n].people[i].to
  {
    RunKeepsInv(states, actions, numFloors, n);
    assert PersonInv(states[n].car, states[n].boss, states[n].people[i]);
  }

  // ---------------------------------------------------------------- what the manager and the people decide

  /** Somebody is to be let in or out: a waiter for the way the elevator goes finds one of five places, or a rider wants
      to get out here. */
  ghost predicate StopWanted(s: State) {
    || (Members(s.people, WaitsAt(s.car.movingUp, s.car.floor)) != {} && |Members(s.people, CountedIn)| < 5)
    || Members(s.people, RidesTo(s.boss.outUp, s.car.floor)) != {}
  }

  lemma LooksRight(s: State, next: Stage)
    requires Inv(s) && (s.boss.stage.MScan? || s.boss.stage.MCheck?)
    ensures Look(s, next).getIn || Look(s, next).getOut <==> StopWanted(s)
    ensures Look(s, next).stage == next
  {
    assert EntriesCount(s.tables, s.people, s.car.movingUp, s.car.floor);
    assert EntriesCount(s.tables, s.people, s.boss.outUp, s.car.floor);
  }

  /** After its first look at a floor the manager opens the doors if and only if somebody is to be let in or out:
      otherwise, and so when the elevator is full and nobody gets out, it leaves. */
  lemma DoorsOpenWhen(s: State)
    requires Inv(s) && s.boss.stage.MScan?
    ensures
      var s2 := ManagerStep(ManagerStep(s));
      if StopWanted(s) then s2.boss.stage.MWant? else s2.boss.stage.MWantMove?
  {
    LooksRight(s, MTest);
  }

  /** The same holds of each further look; before it, everybody asleep is woken. */
  lemma DoorsStayOpenWhen(s: State)
    requires Inv(s) && s.boss.stage.MCheck?
    ensures
      var s1 := ManagerStep(s);
      var s3 := ManagerStep(ManagerStep(s1));
      && (if StopWanted(s) then s3.boss.stage.MWant? else s3.boss.stage.MWantMove?)
      && s1.people.Keys == s.people.Keys
      && (forall i :: i in s.people ==>
            s1.people[i] == s.people[i].(phase := if s.people[i].phase.Waiting? then Woken else s.people[i].phase))
  {
    LooksRight(s, MChecked);
  }

  /** A full elevator from which nobody gets out leaves the floor. */
  lemma FullElevatorLeaves(s: State)
    requires Inv(s) && |Members(s.people, CountedIn)| == 5
    requires Members(s.people, RidesTo(s.boss.outUp, s.car.floor)) == {}
    ensures s.boss.stage.MScan? ==> ManagerStep(ManagerStep(s)).boss.stage.MWantMove?
    ensures s.boss.stage.MCheck? ==> ManagerStep(ManagerStep(ManagerStep(s))).boss.stage.MWantMove?
  {
    if s.boss.stage.MScan? {
      DoorsOpenWhen(s);
    } else if s.boss.stage.MCheck? {
      DoorsStayOpenWhen(s);
    }
  }

  /** A person who looks at the elevator boards if and only if it stands at the person's floor, goes the person's way
      and carries fewer than five; a rider gets out if and only if it stands at the floor wanted. */
  lemma BoardsWhen(s: State, i: int)
    requires Inv(s) && i in s.people && s.people[i].phase.Deciding?
    ensures
      var p, p' := s.people[i], PersonStep(s, i).people[i];
      && (p'.phase.Arrived? <==> p.at == p.to == s.car.floor)
      && (p'.phase.BoardCount? <==> !p.riding && p.at == s.car.floor && p.to != p.at && (p.to > p.at) == s.car.movingUp
                                    && |Members(s.people, CountedIn)| < 5)
      && (p'.phase.LeaveCount? <==> p.riding && p.to == s.car.floor && p.at != p.to)
      && (p'.phase.Arrived? || p'.phase.BoardCount? || p'.phase.LeaveCount? || p'.phase.Decided?)
  {
  }

  /** The manager stops if and only if everybody who asked has been brought to their floor. */
  lemma StopsExactlyWhen(s: State)
    requires Inv(s) && s.boss.stage.MCount?
    ensures
      var s' := ManagerStep(s);
      && (s'.boss.stage.MBreak? <==> forall i :: i in s.people ==> Plays(s.people[i], Served))
      && (s'.boss.stage.MBreak? || s'.boss.stage.MTop?)
  {
    var served := Members(s.people, Served);
    SubsetSize(served, s.people.Keys);
    if forall i :: i in s.people ==> Plays(s.people[i], Served) {
      assert served == s.people.Keys;
    } else {
      var i :| i in s.people && !Plays(s.people[i], Served);
      assert i !in served;
    }
  }

  lemma HolderGoesOn(s: State, i: int)
    requires Inv(s) && s.lock == Some(ByPerson(i))
    ensures PersonEnabled(s, i)
  {
    assert i in s.people && HoldsLock(s.people[i]);
    if CounterKept(s.boss.stage) {
      SubsetSize(Members(s.people, Served), s.people.Keys);
      assert i in Members(s.people, Served);
    }
  }

  /** No run gets stuck: the manager or somebody can take a step until the manager has stopped and everybody is gone. */
  lemma NeverStuck(states: seq<State>, actions: seq<Action>, numFloors: nat, n: nat)
    requires Run(states, actions, numFloors) && numFloors >= 2 && n < |states|
    requires !ManagerEnabled(states[n]) && forall i :: !PersonEnabled(states[n], i)
    ensures states[n].boss.stage.MStopped? && forall i :: i in states[n].people ==> states[n].people[i].phase.Gone?
  {
    RunKeepsInv(states, actions, numFloors, n);
    var s := states[n];
    if s.lock.Some? && s.lock.value.ByPerson? {
      HolderGoesOn(s, s.lock.value.id);
    }
    forall i | i in s.people
      ensures s.people[i].phase.Gone?
    {
      assert !PersonEnabled(s, i);
      StopsWhenAllServed(states, actions, numFloors, n, i);
    }
  }

  /** With a single floor the manager drives the elevator to a floor that does not exist: two floors are needed. */
  lemma OneFloorIsLeft()
    ensures
      var s0 := Initial(1);
      var s1 := ManagerStep(s0);
      var s2 := ManagerStep(s1);
      var s3 := ManagerStep(s2);
      var s4 := ManagerStep(s3);
      var s5 := ManagerStep(s4);
      var s6 := ManagerStep(s5);
      s6.car.floor == 2 && s6.numFloors == 1
  {
    var s0 := Initial(1);
    var s1 := ManagerStep(s0);
    var s2 := ManagerStep(s1);
    var s3 := ManagerStep(s2);
    assert s3.boss.stage == MTest && !s3.boss.getIn && !s3.boss.getOut;
  }

  // ---------------------------------------------------------------- a request that is never looked at

  /** Everybody stands on the top floor and wants to go there, and nobody has been woken. */
  ghost predicate OnlyTopFloor(s: State) {
    && Shaped(s.tables, s.numFloors)
    && (forall i :: i in s.people ==> s.people[i].at == s.people[i].to == s.numFloors && Early(s.people[i]))
    && (forall f :: 0 <= f <= s.numFloors ==>
          s.tables.downQueue[f] == 0 && s.tables.upToQueue[f] == 0 && s.tables.downToQueue[f] == 0)
    && (forall f :: 0 <= f < s.numFloors ==> s.tables.upQueue[f] == 0)
    && !s.boss.stage.MWant? && !s.boss.stage.MCheck? && !s.boss.stage.MChecked?
    && (s.boss.stage.MTest? ==> !s.boss.getIn && !s.boss.getOut)
    && s.count == 0
  }

  lemma PersonKeepsTopFloor(s: State, i: int)
    requires Inv(s) && OnlyTopFloor(s) && PersonEnabled(s, i)
    ensures OnlyTopFloor(PersonStep(s, i))
  {
    assert Early(s.people[i]);
  }

  lemma ManagerKeepsTopFloor(s: State)
    requires Inv(s) && OnlyTopFloor(s) && ManagerEnabled(s)
    ensures OnlyTopFloor(ManagerStep(s))
  {
    assert s.boss.stage.MScan? ==> !Look(s, MTest).getIn && !Look(s, MTest).getOut;
  }

  lemma ArriveKeepsTopFloor(s: State, i: int, at: int, to: int)
    requires Defined(s) && OnlyTopFloor(s) && Enabled(s, Arrive(i, at, to)) && at == to == s.numFloors
    ensures OnlyTopFloor(Next(s, Arrive(i, at, to)))
  {
  }

  /** On the top floor the manager looks for people who go down or get out, so a request from the top floor to the top
      floor never makes it open the doors: as long as all requests are of that kind, nobody is woken and, once there is
      one, the manager never stops. */
  lemma {:induction false} TopFloorStarves(states: seq<State>, actions: seq<Action>, numFloors: nat, n: nat)
    requires Run(states, actions, numFloors) && numFloors >= 2 && n < |states|
    requires forall k :: 0 <= k < n && actions[k].Arrive? ==> actions[k].at == actions[k].to == numFloors
    ensures OnlyTopFloor(states[n]) && (states[n].people != map[] ==> !states[n].boss.stage.MStopped?)
  {
    RunKeepsInv(states, actions, numFloors, n);
    RunKeepsFloors(states, actions, numFloors, n);
    if n > 0 {
      var s, a := states[n - 1], actions[n - 1];
      RunKeepsInv(states, actions, numFloors, n - 1);
      RunKeepsFloors(states, actions, numFloors, n - 1);
      TopFloorStarves(states, actions, numFloors, n - 1);
      assert RunsOn(s, a, states[n]);
      match a
      case Arrive(i, at, to) => ArriveKeepsTopFloor(s, i, at, to);
      case PersonActs(i) => PersonKeepsTopFloor(s, i);
      case ManagerActs => ManagerKeepsTopFloor(s);
    }
  }
}
