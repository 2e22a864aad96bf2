/** The ownership tree of `own_t` objects and the commands with which it is shut down.

    An object is a record in a table; its number is its place in the table.  Each object has its own
    FIFO inbox: a shared mailbox delivers the commands of one object in the order in which they were
    sent, and says nothing more about them. */
module Ownership {
  import opened Bytes

  type Id = nat

  datatype Cmd =
    | Plug
    | Own(child: Id)
    | Counted               // bind, attach, inproc_connected: counted by the sequence numbers
    | TermReq(child: Id)
    | Term
    | TermAck(from: Id)     // `from` is not read by the receiver

  datatype Obj = Obj(
    owner: Option<Id>,
    alive: bool,
    terminating: bool,
    sent: nat,
    processed: nat,
    owned: set<Id>,
    termAcks: int,
    inbox: seq<Cmd>,
    reserved: nat,            // sequence numbers taken whose command is not sent yet
    launching: Option<Id>)    // plug is sent to this child, own is not sent yet

  type State = seq<Obj>

  /* The operations of own_t, as functions of the table. */

  function Send(s: State, to: Id, cmd: Cmd): (t: State)
    requires to < |s|
    ensures |t| == |s|
  {
    s[to := s[to].(inbox := s[to].inbox + [cmd])]
  }

  function SendTerms(s: State, to: set<Id>): (t: State)
    ensures |t| == |s|
  {
    seq(|s|, j requires 0 <= j < |s| => if j in to then s[j].(inbox := s[j].inbox + [Term]) else s[j])
  }

  // Nothing is left to wait for.
  predicate MayGo(o: Obj)
  {
    o.terminating && o.processed == o.sent && o.termAcks == 0
  }

  predicate OwnerKnown(s: State, i: Id)
    requires i < |s|
  {
    s[i].owner.Some? ==> s[i].owner.value < |s|
  }

  function CheckTermAcks(s: State, i: Id): (t: State)
    requires i < |s| && OwnerKnown(s, i)
    ensures |t| == |s|
  {
    if MayGo(s[i]) then
      var t := if s[i].owner.Some? then Send(s, s[i].owner.value, TermAck(i)) else s;
      t[i := t[i].(alive := false)]
    else
      s
  }

  function ProcessSeqnum(s: State, i: Id): (t: State)
    requires i < |s| && OwnerKnown(s, i)
    ensures |t| == |s|
  {
    CheckTermAcks(s[i := s[i].(processed := s[i].processed + 1)], i)
  }

  function ProcessOwn(s: State, i: Id, child: Id): (t: State)
    requires i < |s| && child < |s|
    ensures |t| == |s|
  {
    if s[i].terminating then
      Send(s[i := s[i].(termAcks := s[i].termAcks + 1)], child, Term)
    else
      s[i := s[i].(owned := s[i].owned + {child})]
  }

  function ProcessTermReq(s: State, i: Id, child: Id): (t: State)
    requires i < |s| && child < |s|
    ensures |t| == |s|
  {
    if s[i].terminating || child !in s[i].owned then s
    else Send(s[i := s[i].(owned := s[i].owned - {child}, termAcks := s[i].termAcks + 1)], child, Term)
  }

  function StartTerm(s: State, i: Id): (t: State)
    requires i < |s|
    ensures |t| == |s|
  {
    var t := SendTerms(s, s[i].owned);
    t[i := t[i].(termAcks := t[i].termAcks + |t[i].owned|, owned := {}, terminating := true)]
  }

  function ProcessTerm(s: State, i: Id): (t: State)
    requires i < |s| && OwnerKnown(s, i)
    ensures |t| == |s|
  {
    CheckTermAcks(StartTerm(s, i), i)
  }

  function ProcessTermAck(s: State, i: Id): (t: State)
    requires i < |s| && OwnerKnown(s, i)
    ensures |t| == |s|
  {
    CheckTermAcks(s[i := s[i].(termAcks := s[i].termAcks - 1)], i)
  }

  /* Steps. */

  predicate ChildKnown(s: State, cmd: Cmd)
  {
    match cmd
    case Own(c) => c < |s|
    case TermReq(c) => c < |s|
    case TermAck(c) => c < |s|
    case _ => true
  }

  // The objects a record names are in the table.
  predicate Known(s: State)
  {
    forall i | 0 <= i < |s| ::
      && OwnerKnown(s, i)
      && (s[i].launching.Some? ==> s[i].launching.value < |s|)
      && forall k | 0 <= k < |s[i].inbox| :: ChildKnown(s, s[i].inbox[k])
  }

  datatype Event =
    | NewRoot
    | Launch(p: Id)         // set_owner and send_plug
    | LaunchOwn(p: Id)      // send_own, the rest of launch_child
    | Terminate(i: Id)
    | TermChild(i: Id, c: Id)  // term_child: as if c had asked
    | Reserve(i: Id)        // inc_seqnum ahead of a command
    | Redeem(i: Id)         // the command itself
    | Process(i: Id)

  // An object is free to act when it exists and its thread is not in the middle of a launch.
  predicate Free(s: State, i: Id)
  {
    i < |s| && s[i].alive && s[i].launching.None?
  }

  predicate Enabled(s: State, e: Event)
  {
    match e
    case NewRoot => true
    case Launch(p) => Free(s, p)
    case LaunchOwn(p) => p < |s| && s[p].launching.Some?
    case Terminate(i) => Free(s, i)
    case TermChild(i, c) => Free(s, i) && c < |s|
    case Reserve(i) => i < |s| && s[i].alive
    case Redeem(i) => i < |s| && s[i].reserved > 0
    case Process(i) => Free(s, i) && s[i].inbox != []
  }

  // A new object; one that is launched has its plug command in flight.
  function Newborn(owner: Option<Id>): Obj
  {
    var box := if owner.Some? then [Plug] else [];
    Obj(owner, true, false, |box|, 0, {}, 0, box, 0, None)
  }

  function Born(s: State, owner: Option<Id>): State
    requires owner.Some? ==> owner.value < |s|
  {
    var t := if owner.Some? then s[owner.value := s[owner.value].(launching := Some(|s|))] else s;
    t + [Newborn(owner)]
  }

  function Deliver(s: State, i: Id): (t: State)
    requires Known(s) && i < |s| && s[i].inbox != []
    ensures |t| == |s|
  {
    var cmd := s[i].inbox[0];
    assert ChildKnown(s, cmd);
    var t := s[i := s[i].(inbox := s[i].inbox[1..])];
    assert OwnerKnown(s, i);
    match cmd
    case Plug => ProcessSeqnum(t, i)
    case Counted => ProcessSeqnum(t, i)
    case Own(c) => ProcessSeqnum(ProcessOwn(t, i, c), i)
    case TermReq(c) => ProcessTermReq(t, i, c)
    case Term => ProcessTerm(t, i)
    case TermAck(_) => ProcessTermAck(t, i)
  }

  function Next(s: State, e: Event): State
    requires Known(s) && Enabled(s, e)
  {
    match e
    case NewRoot => Born(s, None)
    case Launch(p) => Born(s, Some(p))
    case LaunchOwn(p) =>
      var c := s[p].launching.value;
      Send(s[p := s[p].(launching := None, sent := s[p].sent + 1)], p, Own(c))
    case Terminate(i) =>
      assert OwnerKnown(s, i);
      if s[i].terminating then s
      else if s[i].owner.None? then ProcessTerm(s, i)
      else Send(s, s[i].owner.value, TermReq(i))
    case TermChild(i, c) => ProcessTermReq(s, i, c)
    case Reserve(i) => s[i := s[i].(sent := s[i].sent + 1, reserved := s[i].reserved + 1)]
    case Redeem(i) => Send(s[i := s[i].(reserved := s[i].reserved - 1)], i, Counted)
    case Process(i) => Deliver(s, i)
  }

  // The assertions in the code that a command could trip.
  predicate AssertsHold(s: State, i: Id)
    requires Known(s) && i < |s| && s[i].inbox != []
  {
    && (s[i].inbox[0].Term? ==> !s[i].terminating)
    && (s[i].inbox[0].TermAck? ==> s[i].termAcks > 0)
    && (s[i].alive && !Deliver(s, i)[i].alive ==> Deliver(s, i)[i].owned == {})
  }
}
