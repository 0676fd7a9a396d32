/** Admission to the download: only an answer that lets the client in gets it any further, and a client that has left
    stays away. */
module DownloadAdmission {
  import opened Wrappers
  import opened Bits
  import opened NetBuffer
  import opened WorldTransfer
  import opened DownloadSystem

  /** A message that asks for the world is on its way to the server. */
  predicate Requested(s: System)
  {
    exists i :: 0 <= i < |s.up| && s.up[i].kind == NETMSG_WORLD_DOWNLOAD_START
  }

  /** The client has neither asked for the world nor taken anything of it. */
  predicate Outside(s: System)
  {
    !Requested(s) && s.taken == None && s.got == []
  }

  /** Without an answer the client is before the download; with a status other than 0 it has left; with status 0 it has
      gone on. */
  ghost predicate Admission(s: System)
  {
    var c := s.client;
    !s.wild ==>
      match s.reply
      case None =>
        Outside(s) && (c.phase == HELLO || c.phase == HELLO_SENT) && (c.state == CONNECTING || c.state == DISCONNECTED)
      case Some(m) =>
        && m.kind == 0x80
        && if At(m.data, 0) == 0 then c.phase != HELLO && c.phase != HELLO_SENT && c.state != UNCONNECTED
           else c.state == UNCONNECTED && c.phase == HELLO_SENT && Outside(s)
  }

  lemma ClientAdmission(s: System, s': System)
    requires Admission(s) && ClientStep(s, s')
    ensures Admission(s')
  {
    hide SizeIn, Initialised, Copied, FitsWorld, Requested;
    if !s'.wild {
      var sent := s'.up[|s.up|..];
      assert s'.up == s.up + sent;
      SentBy(s, s', sent);
    }
  }

  lemma SentBy(s: System, s': System, sent: seq<Msg>)
    requires s'.up == s.up + sent
    ensures Requested(s') <==>
      Requested(s) || exists i :: 0 <= i < |sent| && sent[i].kind == NETMSG_WORLD_DOWNLOAD_START
  {
    if i :| 0 <= i < |s.up| && s.up[i].kind == NETMSG_WORLD_DOWNLOAD_START {
      assert s'.up[i] == s.up[i];
    }
    if i :| 0 <= i < |sent| && sent[i].kind == NETMSG_WORLD_DOWNLOAD_START {
      assert s'.up[|s.up| + i] == sent[i];
    }
  }

  lemma StepAdmission(s: System, s': System)
    requires Admission(s) && AnyStep(s, s')
    ensures Admission(s')
  {
    hide ClientStep;
    if ClientStep(s, s') {
      ClientAdmission(s, s');
    } else {
      ServerTakesUp(s, s');
      assert Requested(s') ==> Requested(s);
    }
  }

  /** The server, the link and notices leave the client alone; messages to the server can only be taken from the front.
      */
  lemma ServerTakesUp(s: System, s': System)
    requires Deliver(s, s') || ServerStep(s, s') || Notify(s, s') || ShutDown(s, s')
    ensures s'.client == s.client && s'.reply == s.reply && s'.taken == s.taken && s'.got == s.got && s'.wild == s.wild
    ensures s'.up == s.up || (s.up != [] && s'.up == s.up[1..])
  {
    hide Accepted, Push, Header, NextChunk, AfterChunk;
  }

  lemma {:induction false} RunAdmission(run: seq<System>, k: nat)
    requires AnyRun(run) && k < |run|
    ensures Admission(run[k])
    decreases k
  {
    hide Admission, AnyStep;
    if k == 0 {
      StartsOutside(run[0]);
    } else {
      hide Init;
      RunAdmission(run, k - 1);
      StepAdmission(run[k - 1], run[k]);
    }
  }

  lemma StartsOutside(s: System)
    requires Init(s)
    ensures Admission(s)
  {
  }

  /** In every run, in whatever order messages are taken: a client that is past its hello has taken a SERVER_HELLO
      (0x80) with status 0. */
  lemma OnlyAdmittedClientsDownload(run: seq<System>, k: nat)
    requires AnyRun(run) && k < |run| && !run[k].wild
    requires run[k].client.state == CONNECTED || (run[k].client.phase != HELLO && run[k].client.phase != HELLO_SENT)
    ensures run[k].reply.Some? && run[k].reply.value.kind == 0x80 && At(run[k].reply.value.data, 0) == 0
  {
    RunAdmission(run, k);
  }

  /** And a client is UNCONNECTED exactly if it has taken one with another status: no other message makes it give up. */
  lemma OnlyRefusedClientsGiveUp(run: seq<System>, k: nat)
    requires AnyRun(run) && k < |run| && !run[k].wild
    ensures run[k].client.state == UNCONNECTED
       <==> run[k].reply.Some? && run[k].reply.value.kind == 0x80 && At(run[k].reply.value.data, 0) != 0
  {
    RunAdmission(run, k);
  }

  // ---- leaving ----

  /** A client that does not listen takes and sends nothing. */
  lemma StepAway(s: System, s': System)
    requires AnyStep(s, s') && !Listening(s.client)
    ensures s'.client == s.client && s'.reply == s.reply && s'.taken == s.taken && s'.got == s.got && s'.wild == s.wild
    ensures s'.up == s.up || (s.up != [] && s'.up == s.up[1..])
  {
    hide Deliver, ServerStep, Notify, ShutDown;
    if ClientStep(s, s') {
      assert s'.up == s.up + [];
    } else {
      ServerTakesUp(s, s');
    }
  }

  /** The client is as it was, and has sent nothing more. */
  predicate Left(s: System, t: System)
  {
    && t.client == s.client && t.reply == s.reply && t.taken == s.taken && t.got == s.got && t.wild == s.wild
    && |t.up| <= |s.up|
  }

  /** A client that has left, by a refusal or a shutdown, stays as it is in every continuation. */
  lemma {:induction false} LeftForGood(run: seq<System>, j: nat, k: nat)
    requires AnySteps(run) && j <= k < |run| && !Listening(run[j].client)
    ensures Left(run[j], run[k])
    decreases k
  {
    hide AnyStep, AnySteps, Listening, Left;
    if j < k {
      LeftForGood(run, j, k - 1);
      StepAt(run, k - 1);
      LeftStep(run[j], run[k - 1], run[k]);
    } else {
      LeftAtOnce(run[j]);
    }
  }

  lemma LeftAtOnce(s: System)
    ensures Left(s, s)
  {
  }

  lemma StepAt(run: seq<System>, k: nat)
    requires AnySteps(run) && k + 1 < |run|
    ensures AnyStep(run[k], run[k + 1])
  {
    hide AnyStep;
  }

  lemma LeftStep(s: System, t: System, t': System)
    requires Left(s, t) && !Listening(s.client) && AnyStep(t, t')
    ensures Left(s, t')
  {
    hide AnyStep;
    StepAway(t, t');
  }

  /** A client that waits for the answer to its hello and takes one with another status than 0 is UNCONNECTED from then
      on, has not asked for the world and never does, and takes nothing of it. */
  lemma RefusedForGood(run: seq<System>, j: nat, k: nat)
    requires AnyRun(run) && j < k < |run| && !run[j].wild && ClientStep(run[j], run[j + 1])
    requires run[j].client.state == CONNECTING && run[j].client.phase == HELLO_SENT
    requires Newest(run[j]).Some? && Newest(run[j]).value.kind == 0x80 && At(Newest(run[j]).value.data, 0) != 0
    ensures run[k].client.state == UNCONNECTED && run[k].reply == Newest(run[j])
    ensures !Requested(run[k]) && run[k].taken == None && run[k].got == []
  {
    hide Admission;
    Refused(run[j], run[j + 1]);
    hide ClientStep, Newest, AnyStep, Init;
    LeftForGood(run, j + 1, k);
    RunAdmission(run, k);
    RefusedIsOutside(run[k]);
  }

  lemma Refused(s: System, s': System)
    requires !s.wild && ClientStep(s, s') && s.client.state == CONNECTING && s.client.phase == HELLO_SENT
    requires Newest(s).Some? && Newest(s).value.kind == 0x80 && At(Newest(s).value.data, 0) != 0
    ensures s'.client.state == UNCONNECTED && s'.reply == Newest(s) && !s'.wild
  {
  }

  lemma RefusedIsOutside(s: System)
    requires Admission(s) && !s.wild && s.reply.Some? && At(s.reply.value.data, 0) != 0
    ensures Outside(s)
  {
  }

  /** A client that takes the message that ends the server is DISCONNECTED from then on, and has told the server so. */
  lemma ShutDownForGood(run: seq<System>, j: nat, k: nat)
    requires AnySteps(run) && j < k < |run| && ClientStep(run[j], run[j + 1])
    requires Newest(run[j]).Some? && Newest(run[j]).value.kind == 0x83
    ensures run[j + 1].up == run[j].up + [Msg(0x6, [])]
    ensures run[k].client.state == DISCONNECTED && run[k].taken == run[j].taken && run[k].got == run[j].got
  {
    assert run[j + 1].up == run[j].up + run[j + 1].up[|run[j].up|..];
    hide ClientStep, Newest, AnyStep;
    LeftForGood(run, j + 1, k);
  }

  // ---- a server that keeps silent ----

  /** The server has taken the hello and not let the client in; nothing is on its way. */
  predicate Ignored(s: System)
  {
    && s.peer == None && s.up == [] && s.down == [] && s.buffer == [] && !s.wild
    && s.client.state == CONNECTING && s.client.phase == HELLO_SENT
  }

  lemma StepIgnored(s: System, s': System)
    requires Ignored(s) && AnyStep(s, s')
    ensures Ignored(s') && s'.client == s.client
  {
    hide Accepted, Push, Header, NextChunk, AfterChunk, SizeIn;
    if ClientStep(s, s') {
      assert s'.up == s.up + [];
    }
  }

  /** A client whose hello is not answered waits for ever: no continuation lets it in, or tells it anything. */
  lemma {:induction false} IgnoredForEver(run: seq<System>, k: nat)
    requires AnySteps(run) && k < |run| && Ignored(run[0])
    ensures Ignored(run[k]) && run[k].client == run[0].client
    decreases k
  {
    if k > 0 {
      hide AnyStep, Ignored;
      IgnoredForEver(run, k - 1);
      StepIgnored(run[k - 1], run[k]);
    }
  }
}
