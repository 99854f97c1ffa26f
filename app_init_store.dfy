/** The application-start store: whether the database came up, or the message
    of the error that stopped it. Its state is a pair of flags that the two
    setters overwrite; `Apply` is the transition on values and `Run` folds a
    history of setter calls. */
module AppInit {
  import opened Rows

  datatype InitState = InitState(isDbInitialized: bool, dbInitializationError: Option<string>)

  /** Both refs before any setter runs: not initialized, no error. */
  const Initial: InitState := InitState(false, None)

  /** A call of one of the two exported setters. */
  datatype Event = DbInitialized | DbInitializationError(message: string)

  /** The state after one setter call. */
  function Apply(s: InitState, e: Event): (r: InitState)
    ensures e.DbInitialized? ==> r.isDbInitialized && r.dbInitializationError.None?
    ensures e.DbInitializationError? ==> !r.isDbInitialized && r.dbInitializationError == Some(e.message)
  {
    match e
    case DbInitialized => InitState(true, None)
    case DbInitializationError(message) => InitState(false, Some(message))
  }

  /** The store never reports success and an error at once. */
  predicate Consistent(s: InitState) {
    !(s.isDbInitialized && s.dbInitializationError.Some?)
  }

  /** The state after a history of setter calls, oldest first. */
  function Run(s: InitState, events: seq<Event>): (r: InitState)
    ensures events == [] ==> r == s
    ensures events != [] ==> (r.isDbInitialized <==> events[|events| - 1].DbInitialized?)
    decreases |events|
  {
    if events == [] then s else Run(Apply(s, events[0]), events[1..])
  }

  /** Every reachable state is consistent. */
  lemma {:induction false} RunConsistent(s: InitState, events: seq<Event>)
    requires Consistent(s)
    ensures Consistent(Run(s, events))
    decreases |events|
  {
    if events != [] {
      RunConsistent(Apply(s, events[0]), events[1..]);
    }
  }

  /** Only the last call counts: the state after a non-empty history is what
      the last setter sets, whatever came before it. */
  lemma {:induction false} RunLastWins(s: InitState, events: seq<Event>)
    requires events != []
    ensures Run(s, events) == Apply(s, events[|events| - 1])
    decreases |events|
  {
    if |events| > 1 {
      RunLastWins(Apply(s, events[0]), events[1..]);
      assert events[1..][|events[1..]| - 1] == events[|events| - 1];
    }
  }

  /** Calling a setter twice in a row is the same as calling it once. */
  lemma ApplyIdempotent(s: InitState, e: Event)
    ensures Apply(Apply(s, e), e) == Apply(s, e)
  {
  }

  /** The Pinia store `appInit`, its two refs as fields. */
  class AppInitStore {
    var isDbInitialized: bool
    var dbInitializationError: Option<string>

    function State(): InitState
      reads this
    {
      InitState(isDbInitialized, dbInitializationError)
    }

    constructor()
      ensures State() == Initial
    {
      isDbInitialized := false;
      dbInitializationError := None;
    }

    /** The exported `setDbInitialized`, which is `setDbInitializedAndResolve`. */
    method SetDbInitialized()
      modifies this
      ensures isDbInitialized && dbInitializationError.None?
      ensures State() == Apply(old(State()), DbInitialized)
    {
      isDbInitialized := true;
      dbInitializationError := None;
    }

    method SetDbInitializationError(errorMessage: string)
      modifies this
      ensures !isDbInitialized && dbInitializationError == Some(errorMessage)
      ensures State() == Apply(old(State()), DbInitializationError(errorMessage))
    {
      dbInitializationError := Some(errorMessage);
      isDbInitialized := false;
    }
  }
}
