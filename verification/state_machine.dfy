/**
 * The controller's state machine (visual/main.js, the StateMachine.create
 * call): eleven states, sixteen events, each event with a list of states it
 * may fire from (or every state, written '*') and a single state it leads to.
 */
module StateMachine {
  import opened Options

  /** The controller's states; `Uninitialized` is the library's initial state 'none'. */
  datatype State =
    | Uninitialized | Ready | Starting | Searching | Paused | Finished | Modified
    | DraggingStart | DraggingEnd | DrawingWall | ErasingWall

  datatype Event =
    | Init | Search | Pause | Finish | Resume | Cancel | Modify | Reset
    | Clear | Start | Restart | DragStart | DragEnd | DrawWall | EraseWall | Rest

  /** The `from` part of a row: a list of states, or the wildcard '*'. */
  datatype From = AnyState | OneOf(states: seq<State>)

  /** One row of the events table. */
  datatype Transition = Transition(name: Event, from: From, to: State)

  /** The events table, row by row in the order the controller declares it. */
  const Table: seq<Transition> := [
    Transition(Init, OneOf([Uninitialized]), Ready),
    Transition(Search, OneOf([Starting]), Searching),
    Transition(Pause, OneOf([Searching]), Paused),
    Transition(Finish, OneOf([Searching]), Finished),
    Transition(Resume, OneOf([Paused]), Searching),
    Transition(Cancel, OneOf([Paused]), Ready),
    Transition(Modify, OneOf([Finished]), Modified),
    Transition(Reset, AnyState, Ready),
    Transition(Clear, OneOf([Finished, Modified]), Ready),
    Transition(Start, OneOf([Ready, Modified]), Starting),
    Transition(Restart, OneOf([Searching, Finished]), Starting),
    Transition(DragStart, OneOf([Ready, Finished]), DraggingStart),
    Transition(DragEnd, OneOf([Ready, Finished]), DraggingEnd),
    Transition(DrawWall, OneOf([Ready, Finished]), DrawingWall),
    Transition(EraseWall, OneOf([Ready, Finished]), ErasingWall),
    Transition(Rest, OneOf([DraggingStart, DraggingEnd, DrawingWall, ErasingWall]), Ready)
  ]

  /**
   * The position of the row that declares `e`. The library turns the table
   * into a map from event and source state to target; since every event is
   * named by exactly one row (lemma DeclaredOnce), that map's entry for `e` is
   * this row.
   */
  function RowIndex(e: Event): (i: nat)
    ensures i < |Table| && Table[i].name == e
  {
    match e
    case Init => 0
    case Search => 1
    case Pause => 2
    case Finish => 3
    case Resume => 4
    case Cancel => 5
    case Modify => 6
    case Reset => 7
    case Clear => 8
    case Start => 9
    case Restart => 10
    case DragStart => 11
    case DragEnd => 12
    case DrawWall => 13
    case EraseWall => 14
    case Rest => 15
  }

  /** Whether a row's `from` part admits state `s`. */
  predicate Admits(from: From, s: State) {
    from.AnyState? || s in from.states
  }

  /**
   * The library's `can(e)`: the event's row lists the current state, or the
   * wildcard.
   */
  predicate Can(s: State, e: Event): (r: bool)
    ensures r <==> s in Sources(e)
  {
    RowAgreesWithSources(s, e);
    Admits(Table[RowIndex(e)].from, s)
  }

  /** The row of `e` admits exactly the states the reference lists for `e`. */
  lemma RowAgreesWithSources(s: State, e: Event)
    ensures Admits(Table[RowIndex(e)].from, s) <==> s in Sources(e)
  {
  }

  /** The state reached by firing `e` in `s`, or None when `e` is not allowed in `s`. */
  function Next(s: State, e: Event): (r: Option<State>)
    ensures r.Some? <==> Can(s, e)
  {
    if Can(s, e) then Some(Table[RowIndex(e)].to) else None
  }

  /**
   * Firing an event: the new state when it is allowed, the same state when it
   * is rejected.
   */
  function Fire(s: State, e: Event): (r: State)
    ensures !Can(s, e) ==> r == s
  {
    Next(s, e).GetOr(s)
  }

  // ---------------------------------------------------------------------
  // The same table written a second time, event by event, as a reference.

  /** The states each event may fire from. */
  function Sources(e: Event): set<State> {
    match e
    case Init => {Uninitialized}
    case Search => {Starting}
    case Pause => {Searching}
    case Finish => {Searching}
    case Resume => {Paused}
    case Cancel => {Paused}
    case Modify => {Finished}
    case Reset =>
      {Uninitialized, Ready, Starting, Searching, Paused, Finished, Modified,
       DraggingStart, DraggingEnd, DrawingWall, ErasingWall}
    case Clear => {Finished, Modified}
    case Start => {Ready, Modified}
    case Restart => {Searching, Finished}
    case DragStart => {Ready, Finished}
    case DragEnd => {Ready, Finished}
    case DrawWall => {Ready, Finished}
    case EraseWall => {Ready, Finished}
    case Rest => {DraggingStart, DraggingEnd, DrawingWall, ErasingWall}
  }

  /** The single state each event leads to. */
  function Target(e: Event): State {
    match e
    case Init => Ready
    case Search => Searching
    case Pause => Paused
    case Finish => Finished
    case Resume => Searching
    case Cancel => Ready
    case Modify => Modified
    case Reset => Ready
    case Clear => Ready
    case Start => Starting
    case Restart => Starting
    case DragStart => DraggingStart
    case DragEnd => DraggingEnd
    case DrawWall => DrawingWall
    case EraseWall => ErasingWall
    case Rest => Ready
  }

  /** The four states in which the user is editing the grid with the pointer. */
  predicate Editing(s: State) {
    s == DraggingStart || s == DraggingEnd || s == DrawingWall || s == ErasingWall
  }

  // ---------------------------------------------------------------------
  // Properties of the table.

  /**
   * Guards and targets: an event is allowed exactly in the states its row
   * lists (every state for `Reset`), and firing an allowed event leads to the
   * row's single target.
   */
  lemma TableAgreesWithReference(s: State, e: Event)
    ensures Can(s, e) <==> s in Sources(e)
    ensures Next(s, e) == if s in Sources(e) then Some(Target(e)) else None
  {
  }

  /** Every event is named by one row of the table and by no other. */
  lemma DeclaredOnce(e: Event, i: nat)
    requires i < |Table| && Table[i].name == e
    ensures i == RowIndex(e)
  {
  }

  /** From Ready only start, reset and the four pointer edits are allowed. */
  lemma EnabledInReady(e: Event)
    ensures Can(Ready, e) <==> e in {Start, Reset, DragStart, DragEnd, DrawWall, EraseWall}
  {
    TableAgreesWithReference(Ready, e);
  }

  /** While searching, the user may pause or restart, and playback may finish. */
  lemma EnabledInSearching(e: Event)
    ensures Can(Searching, e) <==> e in {Pause, Finish, Restart, Reset}
  {
    TableAgreesWithReference(Searching, e);
  }

  /** A paused search may only be resumed, cancelled or reset. */
  lemma EnabledInPaused(e: Event)
    ensures Can(Paused, e) <==> e in {Resume, Cancel, Reset}
  {
    TableAgreesWithReference(Paused, e);
  }

  /**
   * A finished search allows restarting, clearing, modifying, resetting and
   * the four pointer edits; only `Restart` and `Reset` are shared with Searching.
   */
  lemma EnabledInFinished(e: Event)
    ensures Can(Finished, e) <==>
            e in {Restart, Clear, Modify, Reset, DragStart, DragEnd, DrawWall, EraseWall}
  {
    TableAgreesWithReference(Finished, e);
  }

  /** The four editing states are left only by `Rest` or `Reset`, both back to Ready. */
  lemma EditingExits(s: State, e: Event)
    requires Editing(s)
    ensures Can(s, e) <==> e == Rest || e == Reset
    ensures Can(s, e) ==> Fire(s, e) == Ready
  {
    TableAgreesWithReference(s, e);
  }

  /** `Reset` is allowed everywhere, the initial state included, and leads to Ready. */
  lemma ResetFromAnywhere(s: State)
    ensures Can(s, Reset) && Fire(s, Reset) == Ready
  {
    TableAgreesWithReference(s, Reset);
  }

  /**
   * A search is entered only through Starting, and Starting only by `start`
   * from Ready or Modified or by `restart` from Searching or Finished: a
   * restart is allowed while the previous search is still playing back.
   */
  lemma EnteringStarting(s: State, e: Event)
    ensures Next(s, e) == Some(Starting) <==>
            (e == Start && (s == Ready || s == Modified)) ||
            (e == Restart && (s == Searching || s == Finished))
    ensures Next(s, e) == Some(Searching) <==>
            (e == Search && s == Starting) || (e == Resume && s == Paused)
  {
    TableAgreesWithReference(s, e);
  }

  /** Finished is reached only by `finish` from Searching. */
  lemma EnteringFinished(s: State, e: Event)
    ensures Next(s, e) == Some(Finished) <==> e == Finish && s == Searching
  {
    TableAgreesWithReference(s, e);
  }

  /** No event leads back to the initial state. */
  lemma NeverUninitializedAgain(s: State, e: Event)
    ensures Fire(s, e) == Uninitialized ==> s == Uninitialized && !Can(s, e)
  {
    TableAgreesWithReference(s, e);
  }

  /** The state after firing `events` one after the other, rejected ones changing nothing. */
  function Run(s: State, events: seq<Event>): State
    decreases |events|
  {
    if events == [] then s else Run(Fire(s, events[0]), events[1..])
  }

  /**
   * Whatever was fired before, a reset followed by a pointer edit and its
   * release ends in Ready, and `start` is then allowed.
   */
  lemma {:induction false} ResetThenEditThenStart(s: State, edit: Event)
    requires edit in {DragStart, DragEnd, DrawWall, EraseWall}
    ensures Run(s, [Reset, edit, Rest]) == Ready
    ensures Can(Run(s, [Reset, edit, Rest]), Start)
  {
    ResetFromAnywhere(s);
    TableAgreesWithReference(Ready, edit);
    var editing := Fire(Ready, edit);
    EditingExits(editing, Rest);
    TableAgreesWithReference(Ready, Start);
    calc {
      Run(s, [Reset, edit, Rest]);
      Run(Fire(s, Reset), [edit, Rest]);
      Run(Fire(Ready, edit), [Rest]);
      Run(Fire(editing, Rest), []);
      Ready;
    }
  }
}
