/** The QMP client: one greeting, then commands and answers in lock step with
  * asynchronous events in between (sections "Commands Responses" and "Asynchronous
  * events" of the QEMU Machine Protocol Specification). */
module Qmp {
  import opened Wrappers
  import opened Faults

  /** A decoded message; a greeting has neither event, error nor result. */
  datatype Message = Message(event: string, error: Option<string>, result: string)

  datatype Reply = Returned(result: string) | Refused(desc: string) | Broken

  predicate IsEvent(m: Message) {
    m.event != ""
  }

  function ReplyOf(m: Message): Reply {
    if m.error.Some? then Refused(m.error.value) else Returned(m.result)
  }

  /** The messages that are no events, in order. */
  function Answers(ms: seq<Message>): seq<Message> {
    if ms == [] then []
    else if IsEvent(ms[0]) then Answers(ms[1..])
    else [ms[0]] + Answers(ms[1..])
  }

  /** How many messages come before the next that is no event. */
  function Lead(ms: seq<Message>): (n: nat)
    ensures n <= |ms| && forall i :: 0 <= i < n ==> IsEvent(ms[i])
    ensures n < |ms| ==> !IsEvent(ms[n])
  {
    if ms == [] || !IsEvent(ms[0]) then 0 else 1 + Lead(ms[1..])
  }

  lemma {:induction false} AnswersAppend(a: seq<Message>, b: seq<Message>)
    ensures Answers(a + b) == Answers(a) + Answers(b)
  {
    if a == [] {
      assert a + b == b;
    } else {
      AnswersAppend(a[1..], b);
      assert (a + b)[1..] == a[1..] + b && (a + b)[0] == a[0];
      assert [a[0]] + (Answers(a[1..]) + Answers(b)) == ([a[0]] + Answers(a[1..])) + Answers(b);
    }
  }

  /** What a server sends on account of command number `k`: one answer, with any
    * events before and after it. */
  type Server = (nat, string) -> seq<Message>

  ghost predicate AnswersOnce(server: Server) {
    forall k, command :: |Answers(server(k, command))| == 1
  }

  /** The answer a server gives to a command. */
  function AnswerTo(server: Server, k: nat, command: string): Message
    requires |Answers(server(k, command))| == 1
  {
    Answers(server(k, command))[0]
  }

  /** The server's own answers to commands number `k`, `k + 1`, and so on. */
  ghost function OwnAnswers(server: Server, k: nat, commands: seq<string>): (own: seq<Message>)
    requires AnswersOnce(server)
    ensures |own| == |commands|
  {
    seq(|commands|, i requires 0 <= i < |commands| => AnswerTo(server, k + i, commands[i]))
  }

  /** Taking the first of a window and adding the next behind it moves the window on. */
  lemma NextInLine(queue: seq<Message>, n: nat, width: nat)
    requires n + width < |queue|
    ensures var line := queue[n..n + width] + [queue[n + width]];
            line[0] == queue[n] && line[1..] == queue[n + 1..n + 1 + width]
  {
  }

  class Client {
    const server: Server
    /** What the server has sent and the client has not read yet. */
    var inbox: seq<Message>
    var sent: seq<string>
    var up: bool

    constructor (server: Server, greeting: seq<Message>)
      ensures this.server == server && inbox == greeting && sent == [] && up
    {
      this.server, inbox, sent, up := server, greeting, [], true;
    }

    /** `Execute`: it reads up to the next message that is no event and takes that for
      * its answer; only events are skipped. Unread answers from before come first. */
    method Execute(command: string, calm: bool) returns (r: Reply)
      requires AnswersOnce(server)
      modifies this`inbox, this`sent, this`up
      ensures r.Broken? <==> !up
      ensures up ==> old(up) && sent == old(sent) + [command]
      ensures calm && old(up) ==> up
      ensures up ==>
                var queue := Answers(old(inbox)) + [AnswerTo(server, |old(sent)|, command)];
                r == ReplyOf(queue[0]) && Answers(inbox) == queue[1..]
    {
      var works := Works(calm);
      if !up || !works {
        up := false;
        return Broken;
      }
      var all := inbox + server(|sent|, command);
      AnswersAppend(inbox, server(|sent|, command));
      assert Answers(all) == Answers(inbox) + [AnswerTo(server, |sent|, command)];
      inbox := all;
      sent := sent + [command];
      while true
        invariant up && Answers(inbox) == Answers(all) && Answers(inbox) != []
        invariant sent == old(sent) + [command]
        decreases Lead(inbox)
      {
        works := Works(calm);
        if !works {
          up := false;
          return Broken;
        }
        var resp := inbox[0];
        inbox := inbox[1..];
        if IsEvent(resp) {
          continue;
        }
        r := ReplyOf(resp);
        break;
      }
    }

    /** `negotiate`: the first message is taken for the greeting, whatever it is. */
    method Negotiate(calm: bool) returns (r: Reply)
      requires AnswersOnce(server) && inbox != [] && sent == [] && up
      modifies this`inbox, this`sent, this`up
      ensures r.Broken? <==> !up
      ensures calm ==> up
      ensures up ==>
                var queue := Answers(old(inbox)[1..]) + [AnswerTo(server, 0, "qmp_capabilities")];
                sent == ["qmp_capabilities"] && r == ReplyOf(queue[0]) && Answers(inbox) == queue[1..]
    {
      var works := Works(calm);
      if !works {
        up := false;
        return Broken;
      }
      inbox := inbox[1..];
      r := Execute("qmp_capabilities", calm);
    }

    /** Any number of commands in a row: the replies are the unread answers from
      * before followed by the commands' own, in order, as far as they go. */
    method ExecuteAll(commands: seq<string>, calm: bool) returns (rs: seq<Reply>)
      requires AnswersOnce(server) && up
      modifies this`inbox, this`sent, this`up
      ensures |rs| <= |commands| && (up <==> |rs| == |commands|) && (calm ==> up)
      ensures var queue := Answers(old(inbox)) + OwnAnswers(server, |old(sent)|, commands);
              && (forall i :: 0 <= i < |rs| ==> rs[i] == ReplyOf(queue[i]))
              && (up ==> Answers(inbox) == queue[|commands|..])
    {
      rs := [];
      ghost var queue := Answers(inbox) + OwnAnswers(server, |sent|, commands);
      ghost var backlog := |Answers(inbox)|;
      while |rs| < |commands|
        invariant |rs| <= |commands| && up && |sent| == |old(sent)| + |rs|
        invariant Answers(inbox) == queue[|rs|..|rs| + backlog]
        invariant forall i :: 0 <= i < |rs| ==> rs[i] == ReplyOf(queue[i])
      {
        ghost var n := |rs|;
        var r := Execute(commands[|rs|], calm);
        if r.Broken? {
          return;
        }
        assert queue[n + backlog] == AnswerTo(server, |old(sent)| + n, commands[n]);
        NextInLine(queue, n, backlog);
        rs := rs + [r];
      }
    }
  }

  /* ---------- whole sessions ---------- */

  /** What is unread when the negotiation looks for its answer, its own one included. */
  ghost function Greeted(server: Server, opening: seq<Message>): (ms: seq<Message>)
    requires AnswersOnce(server) && opening != []
    ensures |ms| == |Answers(opening[1..])| + 1
  {
    Answers(opening[1..]) + [AnswerTo(server, 0, "qmp_capabilities")]
  }

  /** The messages a session takes for answers, in order: those unread after the first
    * message, then the server's answers to the negotiation and to the commands. */
  ghost function Queue(server: Server, opening: seq<Message>, commands: seq<string>): (queue: seq<Message>)
    requires AnswersOnce(server) && opening != []
    ensures |queue| == |Answers(opening[1..])| + 1 + |commands|
  {
    Greeted(server, opening) + OwnAnswers(server, 1, commands)
  }

  /** The replies of a session that meets no fault. A refused negotiation ends it. */
  ghost function Replies(server: Server, opening: seq<Message>, commands: seq<string>): (rs: seq<Reply>)
    requires AnswersOnce(server) && opening != []
    ensures |rs| <= |commands|
  {
    var queue := Queue(server, opening, commands);
    if queue[0].error.Some? then []
    else seq(|commands|, i requires 0 <= i < |commands| => ReplyOf(queue[1 + i]))
  }

  lemma AfterGreeting(server: Server, opening: seq<Message>, commands: seq<string>, rs: seq<Reply>)
    requires AnswersOnce(server) && opening != [] && Greeted(server, opening)[0].error.None?
    requires |rs| <= |commands|
    requires forall i :: 0 <= i < |rs| ==>
               rs[i] == ReplyOf((Greeted(server, opening)[1..] + OwnAnswers(server, 1, commands))[i])
    ensures rs <= Replies(server, opening, commands)
    ensures (Greeted(server, opening)[1..] + OwnAnswers(server, 1, commands))[|commands|..]
            == Queue(server, opening, commands)[1 + |commands|..]
  {
    var rest, own := Greeted(server, opening)[1..], OwnAnswers(server, 1, commands);
    assert Queue(server, opening, commands) == [Greeted(server, opening)[0]] + (rest + own);
  }

  /** `DialQMP` to a server that opens with these messages, then commands in a row, as
    * far as they go. */
  method Session(server: Server, opening: seq<Message>, commands: seq<string>, calm: bool)
    returns (rs: seq<Reply>, unread: seq<Message>)
    requires AnswersOnce(server) && opening != []
    ensures rs <= Replies(server, opening, commands)
    ensures calm ==> rs == Replies(server, opening, commands)
    ensures |rs| == |commands| > 0 ==> Answers(unread) == Queue(server, opening, commands)[1 + |commands|..]
  {
    var client := new Client(server, opening);
    var greeted := client.Negotiate(calm);
    rs := [];
    if greeted.Returned? {
      assert Answers(client.inbox) == Greeted(server, opening)[1..];
      rs := client.ExecuteAll(commands, calm);
      AfterGreeting(server, opening, commands, rs);
    }
    unread := client.inbox;
  }

  /** The reply carries what the answer says: its error's text, or its result. */
  predicate Carries(r: Reply, answer: Message) {
    match answer.error
    case Some(desc) => r == Refused(desc)
    case None => r == Returned(answer.result)
  }

  /** Every reply of the session is the answer to its own command. */
  ghost predicate InSync(server: Server, opening: seq<Message>, commands: seq<string>)
    requires AnswersOnce(server) && opening != []
  {
    forall i :: 0 <= i < |Replies(server, opening, commands)| ==>
      Carries(Replies(server, opening, commands)[i], AnswerTo(server, 1 + i, commands[i]))
  }

  lemma OrderlyOpening(server: Server, opening: seq<Message>, commands: seq<string>)
    requires AnswersOnce(server) && opening != [] && Answers(opening[1..]) == []
    ensures InSync(server, opening, commands)
    ensures Queue(server, opening, commands)[1 + |commands|..] == []
  {
    var own := OwnAnswers(server, 1, commands);
    var queue := Queue(server, opening, commands);
    assert queue == [AnswerTo(server, 0, "qmp_capabilities")] + own;
    forall i | 0 <= i < |commands|
      ensures Carries(ReplyOf(queue[1 + i]), AnswerTo(server, 1 + i, commands[i]))
    {
      assert queue[1 + i] == own[i];
    }
  }

  /** A server that greets before it says anything but events keeps every session in
    * step, and leaves no answer unread. */
  lemma OrderlyOpeningSynchronises(server: Server, commands: seq<string>, greeting: Message, events: seq<Message>)
    requires AnswersOnce(server) && forall i :: 0 <= i < |events| ==> events[i].event != ""
    ensures InSync(server, [greeting] + events, commands)
    ensures Queue(server, [greeting] + events, commands)[1 + |commands|..] == []
  {
    assert ([greeting] + events)[1..] == events;
    OnlyEvents(events);
    OrderlyOpening(server, [greeting] + events, commands);
  }

  /* ---------- the exact condition ---------- */

  /** A server without events: one result for the negotiation, another for all commands. */
  function PlainServer(first: string, later: string): Server {
    (k: nat, command: string) => [Message("", None, if k == 0 then first else later)]
  }

  lemma PlainServerAnswers(first: string, later: string)
    ensures AnswersOnce(PlainServer(first, later))
    ensures forall k, command :: Answers(PlainServer(first, later)(k, command)) == PlainServer(first, later)(k, command)
  {
    forall k: nat, command: string
      ensures Answers(PlainServer(first, later)(k, command)) == PlainServer(first, later)(k, command)
    {
      assert PlainServer(first, later)(k, command)[1..] == [];
    }
  }

  /** What the session takes for the answer to its first command is another message. */
  lemma Foreign(opening: seq<Message>, first: string, later: string)
    requires opening != [] && Answers(opening[1..]) != [] && Answers(opening[1..])[0].error.None?
    requires var next := Answers(opening[1..]) + [Message("", None, first)];
             ReplyOf(next[1]) != Returned(later)
    ensures AnswersOnce(PlainServer(first, later))
    ensures !InSync(PlainServer(first, later), opening, ["query-status"])
  {
    PlainServerAnswers(first, later);
    var server := PlainServer(first, later);
    var queue := Queue(server, opening, ["query-status"]);
    assert AnswerTo(server, 0, "qmp_capabilities") == Message("", None, first);
    assert queue[1] == (Answers(opening[1..]) + [Message("", None, first)])[1];
    assert Replies(server, opening, ["query-status"])[0] == ReplyOf(queue[1]);
    assert AnswerTo(server, 1, "query-status") == Message("", None, later);
  }

  /** Whatever the server answers and whatever is asked, every reply belongs to its
    * command, exactly when nothing but events was unread after the first message, or
    * the first message that was unread passes for a refusal and ends the session. */
  lemma SynchronisedIff(opening: seq<Message>)
    requires opening != []
    ensures (forall server: Server, commands: seq<string> :: AnswersOnce(server) ==> InSync(server, opening, commands))
            <==> (Answers(opening[1..]) == [] || Answers(opening[1..])[0].error.Some?)
  {
    var backlog := Answers(opening[1..]);
    if backlog == [] {
      forall server: Server, commands: seq<string> | AnswersOnce(server)
        ensures InSync(server, opening, commands)
      {
        OrderlyOpening(server, opening, commands);
      }
    } else if backlog[0].error.Some? {
      forall server: Server, commands: seq<string> | AnswersOnce(server)
        ensures InSync(server, opening, commands)
      {
        assert Queue(server, opening, commands)[0] == backlog[0];
      }
    } else {
      var later := if |backlog| > 1 && backlog[1].result == "b" then "c" else "b";
      Foreign(opening, "a", later);
    }
  }

  /** A server that sends an event ahead of its greeting is one: the answer to the
    * negotiation is returned for the first command. */
  lemma EarlyEventDesynchronises(event: Message, greeting: Message)
    requires event.event != "" && greeting.event == "" && greeting.error.None?
    ensures AnswersOnce(PlainServer("capabilities", "running"))
    ensures Replies(PlainServer("capabilities", "running"), [event, greeting], ["query-status"]) == [Returned("capabilities")]
    ensures !InSync(PlainServer("capabilities", "running"), [event, greeting], ["query-status"])
  {
    assert [event, greeting][1..] == [greeting] && [greeting][1..] == [];
    assert Answers([event, greeting][1..]) == [greeting];
    Foreign([event, greeting], "capabilities", "running");
    var server := PlainServer("capabilities", "running");
    assert AnswerTo(server, 0, "qmp_capabilities") == Message("", None, "capabilities");
  }

  lemma {:induction false} OnlyEvents(ms: seq<Message>)
    requires forall i :: 0 <= i < |ms| ==> ms[i].event != ""
    ensures Answers(ms) == []
  {
    if ms != [] {
      OnlyEvents(ms[1..]);
    }
  }
}
