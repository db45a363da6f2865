/** Remote ICE candidates of a call: kept back until a remote description is accepted, then handed
    to the peer connection in the order they came. */
module IceQueue {
  type Candidate = string

  /** How far answering a remote offer gets. */
  datatype OfferFate =
    | Unparsed            // the description does not parse
    | Refused             // the connection refuses it
    | Unanswered          // accepted, but no answer can be made or applied
    | Answered

  datatype AnswerFate = AnswerUnparsed | AnswerRefused | AnswerAccepted

  datatype Command =
    | ApplyRemoteOffer(fate: OfferFate, stable: bool)
    | ApplyRemoteAnswer(result: AnswerFate)
    | AddRemoteIce(ice: Candidate)
    | Other
    | Hangup

  function Received(commands: seq<Command>): seq<Candidate> {
    if commands == [] then []
    else
      var last := commands[|commands| - 1];
      Received(commands[..|commands| - 1]) + if last.AddRemoteIce? then [last.ice] else []
  }

  datatype Exit = GoesOn | Ended | Broken

  /** The command brings a description the connection accepts, answered or not. */
  predicate Accepts(isCaller: bool, command: Command) {
    match command
    case ApplyRemoteOffer(fate, stable) => (stable || !isCaller) && (fate == Answered || fate == Unanswered)
    case ApplyRemoteAnswer(fate) => fate == AnswerAccepted
    case _ => false
  }

  /** The command brings a description that is not passed over and does not take full effect. */
  predicate Fails(isCaller: bool, command: Command) {
    match command
    case ApplyRemoteOffer(fate, stable) => (stable || !isCaller) && fate != Answered
    case ApplyRemoteAnswer(fate) => fate != AnswerAccepted
    case _ => false
  }

  class Engine {
    const isCaller: bool
    var remoteSet: bool
    var pendingIce: seq<Candidate>
    var handed: seq<Candidate>        // given to the peer connection
    ghost var accepted: bool          // the connection has accepted a remote description

    /** What every command keeps. */
    ghost predicate Valid()
      reads this
    {
      && (remoteSet ==> accepted && pendingIce == [])
      && (!accepted ==> handed == [])
    }

    constructor (isCaller: bool)
      ensures Valid() && this.isCaller == isCaller && !remoteSet && pendingIce == [] && handed == [] && !accepted
    {
      this.isCaller := isCaller;
      remoteSet, pendingIce, handed, accepted := false, [], [], false;
    }

    method AddIce(ice: Candidate)
      modifies this`handed
      ensures handed == old(handed) + [ice]
    {
      handed := handed + [ice];
    }

    method DrainIce()
      modifies this`pendingIce, this`handed
      ensures pendingIce == [] && handed == old(handed) + old(pendingIce)
    {
      var taken := pendingIce;
      pendingIce := [];
      for i := 0 to |taken|
        invariant handed == old(handed) + taken[..i] && pendingIce == []
      {
        AddIce(taken[i]);
      }
      assert taken[..|taken|] == taken;
    }

    method AnswerRemoteOffer(fate: OfferFate) returns (ok: bool)
      modifies this`pendingIce, this`handed, this`accepted
      ensures ok <==> fate == Answered
      ensures handed + pendingIce == old(handed + pendingIce) && old(handed) <= handed
      ensures if fate.Unparsed? || fate.Refused? then handed == old(handed) && accepted == old(accepted)
              else accepted && pendingIce == []
    {
      if fate.Unparsed? || fate.Refused? {
        return false;
      }
      accepted := true;
      DrainIce();
      return fate.Answered?;
    }

    method ApplyRemoteAnswer(fate: AnswerFate) returns (ok: bool)
      modifies this`pendingIce, this`handed, this`accepted
      ensures ok <==> fate == AnswerAccepted
      ensures handed + pendingIce == old(handed + pendingIce) && old(handed) <= handed
      ensures if ok then accepted && pendingIce == [] else handed == old(handed) && accepted == old(accepted)
    {
      if !fate.AnswerAccepted? {
        return false;
      }
      accepted := true;
      DrainIce();
      return true;
    }

    /** One turn of the command loop. A description that fails before any has taken effect ends the
        call; later failures change nothing that is in force. */
    method Execute(command: Command) returns (exit: Exit)
      requires Valid()
      modifies this`remoteSet, this`pendingIce, this`handed, this`accepted
      ensures Valid()
      ensures handed + pendingIce == old(handed + pendingIce) + if command.AddRemoteIce? then [command.ice] else []
      ensures old(handed) <= handed
      ensures remoteSet <==> old(remoteSet) || (Accepts(isCaller, command) && !Fails(isCaller, command))
      ensures accepted <==> old(accepted) || Accepts(isCaller, command)
      ensures Accepts(isCaller, command) ==> pendingIce == []
      ensures command.AddRemoteIce? ==> handed == old(handed) + if old(remoteSet) then [command.ice] else []
      ensures exit.Broken? <==> !old(remoteSet) && Fails(isCaller, command)
      ensures exit.Ended? <==> command.Hangup?
    {
      exit := GoesOn;
      match command
      case ApplyRemoteOffer(fate, stable) =>
        if isCaller && !stable {
          return;
        }
        var ok := AnswerRemoteOffer(fate);
        if ok {
          remoteSet := true;
        } else if !remoteSet {
          exit := Broken;
        }
      case ApplyRemoteAnswer(fate) =>
        var ok := ApplyRemoteAnswer(fate);
        if ok {
          remoteSet := true;
        } else if !remoteSet {
          exit := Broken;
        }
      case AddRemoteIce(ice) =>
        if remoteSet {
          AddIce(ice);
        } else {
          pendingIce := pendingIce + [ice];
        }
      case Other =>
      case Hangup => exit := Ended;
    }
  }

  // ---- Whole runs ----

  /** A description has taken full effect among the first n commands. */
  predicate InForce(isCaller: bool, commands: seq<Command>, n: nat)
    requires n <= |commands|
  {
    exists i :: 0 <= i < n && Accepts(isCaller, commands[i]) && !Fails(isCaller, commands[i])
  }

  /** How command i ends the call, if it is reached: a hang-up, or a failing description with none in force. */
  function ExitAt(isCaller: bool, commands: seq<Command>, i: nat): Exit
    requires i < |commands|
  {
    if commands[i].Hangup? then Ended
    else if Fails(isCaller, commands[i]) && !InForce(isCaller, commands, i) then Broken
    else GoesOn
  }

  /** Any commands with any successes and failures. The call ends at the first command that ends it, and
      only there. Candidates handed over and pending are the candidates received, in order, none lost
      or repeated: all of them are handed over once a description has been accepted, none before. */
  method Run(isCaller: bool, commands: seq<Command>) returns (engine: Engine, n: nat, exit: Exit)
    ensures fresh(engine) && engine.Valid() && n <= |commands|
    ensures forall i :: 0 <= i < n - 1 ==> ExitAt(isCaller, commands, i) == GoesOn
    ensures exit == if n == 0 then GoesOn else ExitAt(isCaller, commands, n - 1)
    ensures exit.GoesOn? ==> n == |commands|
    ensures engine.remoteSet <==> InForce(isCaller, commands, n)
    ensures engine.handed + engine.pendingIce == Received(commands[..n])
    ensures engine.handed ==
            if exists i :: 0 <= i < n && Accepts(isCaller, commands[i]) then Received(commands[..n]) else []
  {
    hide Received;
    engine := new Engine(isCaller);
    n := 0;
    exit := GoesOn;
    NothingReceived(commands);
    while n < |commands|
      invariant n <= |commands| && fresh(engine) && engine.Valid() && engine.isCaller == isCaller && exit.GoesOn?
      invariant forall i :: 0 <= i < n ==> ExitAt(isCaller, commands, i) == GoesOn
      invariant engine.remoteSet <==> InForce(isCaller, commands, n)
      invariant engine.remoteSet <==> engine.accepted
      invariant engine.accepted <==> exists i :: 0 <= i < n && Accepts(isCaller, commands[i])
      invariant engine.handed + engine.pendingIce == Received(commands[..n])
    {
      ReceivedSnoc(commands, n);
      exit := engine.Execute(commands[n]);
      n := n + 1;
      if !exit.GoesOn? {
        return;
      }
    }
  }

  lemma ReceivedSnoc(commands: seq<Command>, i: nat)
    requires i < |commands|
    ensures Received(commands[..i + 1])
         == Received(commands[..i]) + if commands[i].AddRemoteIce? then [commands[i].ice] else []
  {
    assert commands[..i + 1][..i] == commands[..i];
  }

  lemma NothingReceived(commands: seq<Command>)
    ensures Received(commands[..0]) == []
  {
  }
}
