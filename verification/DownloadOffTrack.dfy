/** Which states of the world download can still end well: exactly those that are on track. */
module DownloadOffTrack {
  import opened Wrappers
  import opened Bits
  import opened NetBuffer
  import opened WorldTransfer
  import opened DownloadSystem
  import opened DownloadProtocol
  import opened DownloadRuns

  /** The client has read a wrong size, or cannot avoid to: whether it takes a message or none before it waits for the
      announcement, the next one has the wrong size. */
  ghost predicate OffTrack(s: System)
  {
    var c, p := s.client, Pending(s);
    !s.wild && Listening(c) ==>
      match c.phase
      case HELLO => false
      case HELLO_SENT => |p| > 2 && !RightSize(s.world, p[1]) && !RightSize(s.world, p[2])
      case DOWNLOAD_WORLD =>
        |p| > 1 && !RightSize(s.world, p[1]) && (s.buffer == [] ==> !RightSize(s.world, p[0]))
      case DOWNLOAD_WORLD_SENT => p != [] && !RightSize(s.world, p[0])
      case DOWNLOADING_WORLD => s.taken.Some? && !RightSize(s.world, s.taken.value)
      case LETS_GO => s.taken.Some? && !RightSize(s.world, s.taken.value)
  }

  /** More messages behind those on their way make no difference, and neither does a delivery. */
  lemma OffTrackFrame(s: System, s': System)
    requires OffTrack(s) && s'.world == s.world && s'.client == s.client && s'.taken == s.taken && s'.wild == s.wild
    requires Pending(s) <= Pending(s') && (s'.buffer == [] ==> s.buffer == [])
    ensures OffTrack(s')
  {
    hide RightSize, Pending;
  }

  lemma ServerAppends(s: System, s': System)
    requires ServerStep(s, s') || Notify(s, s') || ShutDown(s, s')
    ensures Pending(s) <= Pending(s') && s'.buffer == s.buffer
  {
    hide Header, NextChunk, AfterChunk;
    assert s.down <= s'.down;
  }

  lemma DeliveryKeeps(s: System, s': System)
    requires Inv(s) && !s.wild && Listening(s.client) && s.buffer == [] && Deliver(s, s')
    ensures Pending(s') == Pending(s) && s'.buffer != []
  {
    hide PhaseInv, Accepted, Complete, Law;
    var m := s.down[0];
    assert Push([], m) == [m];
    assert Pending(s) == s.down;
    PendingAccepted(s, s.down);
    assert [m] + s.down[1..] == s.down;
  }

  /** The client's tick takes the first of the messages on their way, or none. */
  lemma TickKeeps(s: System, s': System)
    requires Inv(s) && OffTrack(s) && ClientStep(s, s')
    ensures OffTrack(s')
  {
    hide Law, Complete, RightSize, GoodEnd, PhaseInv, Connecting, OffTrack;
    if !s'.wild && Listening(s'.client) {
      var msg, p := Newest(s), Pending(s);
      assert Pending(s') == Rest(p, msg);
      if s.client.state == CONNECTED {
        ConnectedPhase(s);
        LateKeeps(s, s');
      } else if s.client.phase == DOWNLOADING_WORLD || s.client.phase == LETS_GO {
        LateConnecting(s.client, msg, s'.client, s'.up[|s.up|..]);
        LateKeeps(s, s');
      } else {
        EarlyKeeps(s, s', p, msg, s'.up[|s.up|..]);
      }
    } else {
      Gone(s');
    }
  }

  lemma Gone(s: System)
    requires s.wild || !Listening(s.client)
    ensures OffTrack(s)
  {
  }

  lemma LateConnecting(c: ClientView, msg: Option<Msg>, c': ClientView, sent: seq<Msg>)
    requires Connecting(c, msg, c', sent) && !Overruns(c, msg) && c.state == CONNECTING
    requires c.phase == DOWNLOADING_WORLD || c.phase == LETS_GO
    ensures c'.phase == DOWNLOADING_WORLD || c'.phase == LETS_GO
  {
    hide SizeIn, Copied;
  }

  lemma LateKeeps(s: System, s': System)
    requires OffTrack(s) && !s.wild && Listening(s.client) && s'.taken == s.taken && s'.world == s.world
    requires s.client.phase == DOWNLOADING_WORLD || s.client.phase == LETS_GO
    requires s'.client.phase == DOWNLOADING_WORLD || s'.client.phase == LETS_GO
    ensures OffTrack(s')
  {
    hide RightSize, Pending;
  }

  lemma EarlyKeeps(s: System, s': System, p: seq<Msg>, msg: Option<Msg>, sent: seq<Msg>)
    requires OffTrack(s) && PhaseInv(s, p) && !s.wild && s.client.state == CONNECTING && p == Pending(s)
    requires s.client.phase != DOWNLOADING_WORLD && s.client.phase != LETS_GO
    requires Connecting(s.client, msg, s'.client, sent) && Listening(s'.client)
    requires |s.buffer| <= 1 && msg == Newest(s) && s'.buffer == [] && Pending(s') == Rest(p, msg)
    requires s'.world == s.world && s'.taken == (if TakenForAnnouncement(s.client, msg) then msg else s.taken)
    requires msg.Some? ==> msg.value.kind != NETMSG_SERVER_SHUTDOWN
    ensures OffTrack(s')
  {
    hide RightSize, Carries, Announced, SizeIn, Complete, Initialised, Aside;
    assert msg.Some? ==> p != [] && p[0] == msg.value;
  }

  lemma ConnectedPhase(s: System)
    requires Inv(s) && !s.wild && s.client.state == CONNECTED
    ensures s.client.phase == LETS_GO
  {
    hide PhaseInv, Complete, Assembled, GoodEnd;
  }

  lemma StepOffTrack(s: System, s': System)
    requires Inv(s) && OffTrack(s) && Step(s, s')
    ensures OffTrack(s')
  {
    hide Inv, OffTrack, ClientStep, Deliver, ServerStep, Notify, ShutDown, Pending;
    if ClientStep(s, s') {
      TickKeeps(s, s');
    } else if Deliver(s, s') {
      DeliveryOffTrack(s, s');
    } else {
      ServerAppends(s, s');
      OthersKeepClient(s, s');
      OffTrackFrame(s, s');
    }
  }

  lemma DeliveryOffTrack(s: System, s': System)
    requires Inv(s) && OffTrack(s) && s.buffer == [] && Deliver(s, s')
    ensures OffTrack(s')
  {
    hide Inv, RightSize, Accepted;
    if !s.wild && Listening(s.client) {
      DeliveryKeeps(s, s');
      OffTrackFrame(s, s');
    }
  }

  /** No continuation of such a state completes the download. */
  lemma {:induction false} NeverCompleted(run: seq<System>, k: nat)
    requires Steps(run) && k < |run| && Inv(run[0]) && OffTrack(run[0])
    ensures Inv(run[k]) && OffTrack(run[k]) && run[k].world == run[0].world && !Completed(run[k], run[0].world)
    decreases k
  {
    hide Inv, OffTrack, Step, Completed;
    if k > 0 {
      NeverCompleted(run, k - 1);
      StepInv(run[k - 1], run[k]);
      StepOffTrack(run[k - 1], run[k]);
      StepKeepsWorld(run[k - 1], run[k]);
    }
    NotCompleted(run[k]);
  }

  lemma StepKeepsWorld(s: System, s': System)
    requires Step(s, s')
    ensures s'.world == s.world
  {
    hide AnyStep;
    WorldStays(s, s');
  }

  lemma NotCompleted(s: System)
    requires Inv(s) && OffTrack(s)
    ensures !Completed(s, s.world)
  {
    hide PhaseInv, Complete, GoodEnd, SizeIn, Concat;
  }

  /** A state is on track or off it. */
  lemma OneOrTheOther(s: System)
    requires Inv(s) && s.running && s.peer.Some? && !s.wild && Listening(s.client)
    ensures OnTrack(s) || OffTrack(s)
  {
    hide Complete, GoodEnd, Concat, Carries, Announced, SizeIn;
  }

  /** Some steps from s complete the download. */
  ghost predicate CompletesFrom(s: System, run: seq<System>)
  {
    run != [] && run[0] == s && Steps(run) && Completed(run[|run| - 1], s.world)
  }

  /** In every reachable state with a running server and an admitted client that has not left, the download can be
      completed if and only if the state is on track. */
  lemma CompletesIffOnTrack(first: seq<System>, k: nat)
    requires Run(first) && k < |first| && first[k].running && first[k].peer.Some?
    requires !first[k].wild && Listening(first[k].client)
    ensures OnTrack(first[k]) <==> exists run: seq<System> :: CompletesFrom(first[k], run)
  {
    hide OnTrack, OffTrack, Inv, Steps, Init, Completed;
    var s := first[k];
    RunInv(first, k);
    OneOrTheOther(s);
    if OnTrack(s) {
      var run := CanComplete(s);
      assert CompletesFrom(s, run);
    } else {
      forall run: seq<System> | run != [] && run[0] == s && Steps(run)
        ensures !Completed(run[|run| - 1], s.world)
      {
        NeverCompleted(run, |run| - 1);
      }
    }
  }
}
