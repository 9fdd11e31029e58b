/** `ServerSingleton.Instance` (WinPlayer/ServerRequest.cs): the instance is created on first use, tested before and
    again after taking the lock. The threads interleave at every access to the shared field and to the lock. */
module ServerSingleton {
  import opened Wrappers

  type Thread = nat
  type Instance = nat

  /** Where a thread is in the property getter. */
  datatype Place =
    | OuterTest
    | TakeLock
    | InnerTest
    | Construct
    | Store(made: Instance)
    | Unlock
    | ReadResult
    | Returned(result: Option<Instance>)

  /** The shared field, the owner of the lock, the place of every thread, the instances constructed so far, and
      everything the getter has returned so far. */
  datatype State = State(
    instance: Option<Instance>,
    owner: Option<Thread>,
    places: map<Thread, Place>,
    constructed: seq<Instance>,
    results: seq<Option<Instance>>)

  function Start(threads: set<Thread>): State {
    State(None, None, map t | t in threads :: OuterTest, [], [])
  }

  /** A thread that waits for a lock another thread owns cannot move. */
  predicate Blocked(s: State, t: Thread)
    requires t in s.places
  {
    s.places[t].TakeLock? && s.owner.Some?
  }

  /** The next step of a thread; one that has returned may ask for the instance again. */
  function Step(s: State, t: Thread): State
    requires t in s.places
  {
    match s.places[t]
    case OuterTest => Goto(s, t, if s.instance.None? then TakeLock else ReadResult)
    case TakeLock => if s.owner.Some? then s else Goto(s.(owner := Some(t)), t, InnerTest)
    case InnerTest => Goto(s, t, if s.instance.None? then Construct else Unlock)
    case Construct =>
      var made := |s.constructed|;
      Goto(s.(constructed := s.constructed + [made]), t, Store(made))
    case Store(made) => Goto(s.(instance := Some(made)), t, Unlock)
    case Unlock => Goto(s.(owner := None), t, ReadResult)
    case ReadResult => Goto(s.(results := s.results + [s.instance]), t, Returned(s.instance))
    case Returned(_) => Goto(s, t, OuterTest)
  }

  function Goto(s: State, t: Thread, place: Place): State {
    s.(places := s.places[t := place])
  }

  /** Any interleaving: which thread moves at each instant. Entries for unknown threads are skipped. */
  function Run(s: State, schedule: seq<Thread>): State
    decreases |schedule|
  {
    if schedule == [] then s
    else Run(if schedule[0] in s.places then Step(s, schedule[0]) else s, schedule[1..])
  }

  // ----- what every step keeps -----

  predicate InLock(p: Place) {
    p.InnerTest? || p.Construct? || p.Store? || p.Unlock?
  }

  predicate AllSame(results: seq<Option<Instance>>, instance: Option<Instance>) {
    forall i :: 0 <= i < |results| ==> results[i] == instance && instance.Some?
  }

  ghost predicate Inv(s: State) {
    && (forall t :: t in s.places && InLock(s.places[t]) ==> s.owner == Some(t))
    && (s.owner.Some? ==> s.owner.value in s.places && InLock(s.places[s.owner.value]))
    && (s.instance.Some? ==> s.constructed == [s.instance.value])
    && (forall t :: t in s.places && s.places[t].Construct? ==> s.instance.None?)
    && (forall t :: t in s.places && s.places[t].Store? ==> s.instance.None? && s.constructed == [s.places[t].made])
    && (s.instance.None? && (forall t :: t in s.places ==> !s.places[t].Store?) ==> s.constructed == [])
    && (forall t :: t in s.places && (s.places[t].Unlock? || s.places[t].ReadResult?) ==> s.instance.Some?)
    && AllSame(s.results, s.instance)
    && (forall t :: t in s.places && s.places[t].Returned? ==> s.places[t].result == s.instance && s.instance.Some?)
  }

  lemma StepKeepsInv(s: State, t: Thread)
    requires Inv(s) && t in s.places
    ensures Inv(Step(s, t))
    ensures s.instance.Some? ==> Step(s, t).instance == s.instance
    ensures Step(s, t).places.Keys == s.places.Keys
  {
    match s.places[t]
    case Construct => ConstructKeepsInv(s, t);
    case Store(_) => StoreKeepsInv(s, t);
    case TakeLock => LockKeepsInv(s, t);
    case Unlock => LockKeepsInv(s, t);
    case ReadResult => ReadKeepsInv(s, t);
    case _ => MoveKeepsInv(s, t);
  }

  /** No thread but the owner of the lock is about to store. */
  lemma NoneStores(s: State, t: Thread, place: Place)
    requires t in s.places && !s.places[t].Store?
    requires forall u :: u in Goto(s, t, place).places ==> !Goto(s, t, place).places[u].Store?
    ensures forall u :: u in s.places ==> !s.places[u].Store?
  {
    forall u | u in s.places ensures !s.places[u].Store? {
      if u != t { assert Goto(s, t, place).places[u] == s.places[u]; }
    }
  }

  /** A thread that goes on without touching the field, the lock or the instances. */
  lemma GotoKeepsInv(s: State, t: Thread, place: Place)
    requires Inv(s) && t in s.places && !s.places[t].Store? && !place.Store? && (InLock(place) <==> InLock(s.places[t]))
    requires place.Construct? ==> s.instance.None?
    requires place.Unlock? || place.ReadResult? ==> s.instance.Some?
    requires place.Returned? ==> place.result == s.instance && s.instance.Some?
    ensures Inv(Goto(s, t, place))
  {
    hide AllSame;
    var s' := Goto(s, t, place);
    assert s'.results == s.results && s'.constructed == s.constructed;
    assert s'.owner == s.owner && s'.instance == s.instance;
    assert forall u :: u in s'.places ==> s'.places[u] == if u == t then place else s.places[u];
    if s'.instance.None? && (forall u :: u in s'.places ==> !s'.places[u].Store?) {
      NoneStores(s, t, place);
    }
  }

  lemma MoveKeepsInv(s: State, t: Thread)
    requires Inv(s) && t in s.places
    requires s.places[t].OuterTest? || s.places[t].InnerTest? || s.places[t].Returned?
    ensures Inv(Step(s, t)) && Step(s, t).instance == s.instance
  {
    hide Inv;
    GotoKeepsInv(s, t, match s.places[t]
                       case OuterTest => if s.instance.None? then TakeLock else ReadResult
                       case InnerTest => if s.instance.None? then Construct else Unlock
                       case _ => OuterTest);
  }

  lemma ReadKeepsInv(s: State, t: Thread)
    requires Inv(s) && t in s.places && s.places[t].ReadResult?
    ensures Inv(Step(s, t)) && Step(s, t).instance == s.instance
  {
    var r := s.(results := s.results + [s.instance]);
    forall i | 0 <= i < |r.results| ensures r.results[i] == s.instance && s.instance.Some? {
      assert i < |s.results| ==> r.results[i] == s.results[i];
    }
    GotoKeepsInv(r, t, Returned(s.instance));
  }

  lemma LockKeepsInv(s: State, t: Thread)
    requires Inv(s) && t in s.places && (s.places[t].TakeLock? || s.places[t].Unlock?)
    ensures Inv(Step(s, t)) && Step(s, t).instance == s.instance
  {
    hide AllSame;
    var s' := Step(s, t);
    assert s'.results == s.results && s'.constructed == s.constructed && s'.instance == s.instance;
    assert forall u :: u in s'.places && u != t ==> s'.places[u] == s.places[u];
    if s'.instance.None? && (forall u :: u in s'.places ==> !s'.places[u].Store?) {
      NoneStores(s, t, s'.places[t]);
    }
  }

  lemma ConstructKeepsInv(s: State, t: Thread)
    requires Inv(s) && t in s.places && s.places[t].Construct?
    ensures Inv(Step(s, t))
  {
    hide AllSame;
    var s' := Step(s, t);
    assert forall u :: u in s.places && InLock(s.places[u]) ==> u == t;
    assert s.constructed == [];
    assert s'.places[t] == Store(0) && s'.constructed == [0];
  }

  /** Before the instance is stored nothing is returned. */
  lemma NoResults(s: State)
    requires AllSame(s.results, s.instance)
    ensures s.instance.None? ==> s.results == [] && forall made :: AllSame(s.results, Some(made))
  {
    assert s.results != [] ==> s.results[0] == s.instance;
  }

  lemma StoreKeepsInv(s: State, t: Thread)
    requires Inv(s) && t in s.places && s.places[t].Store?
    ensures Inv(Step(s, t))
  {
    hide AllSame;
    NoResults(s);
    var s' := Step(s, t);
    assert s'.places[t].Unlock? && s'.results == s.results;
    assert forall u :: u in s.places && InLock(s.places[u]) ==> u == t;
  }

  lemma {:induction false} RunKeepsInv(s: State, schedule: seq<Thread>)
    requires Inv(s)
    ensures Inv(Run(s, schedule))
    ensures s.instance.Some? ==> Run(s, schedule).instance == s.instance
    ensures s.results <= Run(s, schedule).results
    ensures Run(s, schedule).places.Keys == s.places.Keys
    decreases |schedule|
  {
    hide Inv;
    if schedule != [] {
      var next := if schedule[0] in s.places then Step(s, schedule[0]) else s;
      if schedule[0] in s.places { StepKeepsInv(s, schedule[0]); }
      RunKeepsInv(next, schedule[1..]);
    }
  }

  lemma {:induction false} RunAppend(s: State, a: seq<Thread>, b: seq<Thread>)
    ensures Run(s, a + b) == Run(Run(s, a), b)
    decreases |a|
  {
    if a == [] {
      assert a + b == b;
    } else {
      assert (a + b)[0] == a[0] && (a + b)[1..] == a[1..] + b;
      RunAppend(if a[0] in s.places then Step(s, a[0]) else s, a[1..], b);
    }
  }

  lemma StartInv(threads: set<Thread>)
    ensures Inv(Start(threads))
  {
    assert forall t :: t in Start(threads).places ==> Start(threads).places[t] == OuterTest;
  }

  // ----- what callers rely on -----

  /** In every interleaving of any threads at most one instance is ever constructed, and everything the getter returns,
      now or later, to whichever thread, is that instance. */
  lemma OneInstance(threads: set<Thread>, schedule: seq<Thread>, later: seq<Thread>)
    ensures var s, s' := Run(Start(threads), schedule), Run(Start(threads), schedule + later);
            && |s'.constructed| <= 1
            && (s.instance.Some? ==> s'.instance == s.instance)
            && s.results <= s'.results
            && forall i :: 0 <= i < |s'.results| ==>
                 && s'.results[i].Some? && s'.results[i] == s'.instance
                 && s'.constructed == [s'.results[i].value]
  {
    StartInv(threads);
    RunAppend(Start(threads), schedule, later);
    var s := Run(Start(threads), schedule);
    RunKeepsInv(Start(threads), schedule);
    RunKeepsInv(s, later);
  }

  // ----- progress -----

  function Alone(s: State, t: Thread, n: nat): State
    requires t in s.places
    decreases n
  {
    if n == 0 then s else Alone(Step(s, t), t, n - 1)
  }

  /** The steps a thread has to take until the getter returns. */
  function StepsLeft(s: State, t: Thread): nat
    requires t in s.places
  {
    match s.places[t]
    case OuterTest => if s.instance.None? then 7 else 2
    case TakeLock => if s.instance.None? then 6 else 4
    case InnerTest => if s.instance.None? then 5 else 3
    case Construct => 4
    case Store(_) => 3
    case Unlock => 2
    case ReadResult => 1
    case Returned(_) => 0
  }

  /** A thread that no other thread locks out returns the instance after so many steps of its own. */
  lemma {:induction false} Completes(s: State, t: Thread)
    requires Inv(s) && t in s.places && (s.owner.None? || s.owner == Some(t))
    ensures var s' := Alone(s, t, StepsLeft(s, t));
            t in s'.places && s'.places[t].Returned? && s'.places[t].result.Some? && s'.places[t].result == s'.instance
    decreases StepsLeft(s, t)
  {
    if !s.places[t].Returned? {
      StepKeepsInv(s, t);
      assert !(s.places[t].TakeLock? && s.owner.Some?);
      assert StepsLeft(Step(s, t), t) == StepsLeft(s, t) - 1;
      Completes(Step(s, t), t);
    }
  }

  /** The steps the owner of the lock has to take until it is free. */
  function StepsInLock(s: State, t: Thread): nat
    requires t in s.places
  {
    match s.places[t]
    case InnerTest => if s.instance.None? then 4 else 2
    case Construct => 3
    case Store(_) => 2
    case Unlock => 1
    case _ => 0
  }

  lemma {:induction false} FreesLock(s: State, u: Thread)
    requires Inv(s) && s.owner == Some(u)
    ensures u in s.places && 0 < StepsInLock(s, u) <= 4 && Alone(s, u, StepsInLock(s, u)).owner == None
    decreases if u in s.places then StepsInLock(s, u) else 0
  {
    StepKeepsInv(s, u);
    if !s.places[u].Unlock? {
      assert StepsInLock(Step(s, u), u) == StepsInLock(s, u) - 1;
      FreesLock(Step(s, u), u);
    }
  }

  /** The threads never wait for each other in vain: whenever one is blocked, the owner of the lock is another one
      that is inside it, can move, and frees it after at most four steps of its own. */
  lemma NoDeadlock(threads: set<Thread>, schedule: seq<Thread>, t: Thread)
    requires t in threads
    ensures var s := Run(Start(threads), schedule);
            t in s.places && (Blocked(s, t) ==>
              && s.owner.Some? && s.owner.value in s.places
              && var u := s.owner.value;
                 && u != t && u in threads && InLock(s.places[u]) && !Blocked(s, u)
                 && StepsInLock(s, u) <= 4 && Alone(s, u, StepsInLock(s, u)).owner == None)
  {
    StartInv(threads);
    RunKeepsInv(Start(threads), schedule);
    var s := Run(Start(threads), schedule);
    if Blocked(s, t) {
      FreesLock(s, s.owner.value);
    }
  }
}
