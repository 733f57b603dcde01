/**
 * The XEP-0357 negotiation for one configured push app server and one scope,
 * driven by an abstract sequence of events: a service-discovery (XEP-0030
 * disco#info) answer arrives, or an IQ answer arrives. The client waits for
 * the disco confirmations it needs, then sends the enable (or disable) IQ,
 * and records the scope in the session's `push_enabled` list only once a
 * `result` IQ carrying the same id comes back.
 */
module PushNegotiation {
  import opened Results
  import opened PushStanza

  /** A disco#info identity: its category and its type. */
  datatype Identity = Identity(category: string, kind: string)

  /** A disco#info answer from the entity `from`. */
  datatype DiscoInfo = DiscoInfo(from: string, identities: set<Identity>, features: set<string>)

  /**
   * What the connection delivers. `nextId` is the id the connection hands out
   * to a stanza the client sends in reaction to this answer.
   */
  datatype Event =
    | DiscoInfoReceived(info: DiscoInfo, nextId: string)
    | IqReceived(iqType: string, id: string)

  datatype Phase =
    | AwaitingAppServerDisco   // enable only: the app server must show it is a push service
    | AwaitingScopeDisco       // the account's server (or the group-chat domain) must support push
    | Sent(id: string)         // the request is on the wire, waiting for its answer
    | Confirmed(id: string)    // the matching `result` came back

  /**
   * Everything one negotiation touches: the connection's IQ log and the
   * session's `push_enabled`, which is unset (`None`) until a request is
   * confirmed and then holds the list of confirmed targets.
   */
  datatype Negotiation = Negotiation(
    server: AppServer, scope: Scope, bareJid: string,
    phase: Phase, iqStanzas: seq<string>, pushEnabled: Option<seq<string>>)

  /** The entity whose support is asked for and that ends up in `push_enabled`. */
  function Target(scope: Scope, bareJid: string): string {
    match scope case Account => bareJid case GroupChat(d) => d
  }

  predicate ConfirmsAppServer(server: AppServer, info: DiscoInfo) {
    info.from == server.jid && Identity("pubsub", "push") in info.identities && NS_PUSH in info.features
  }

  predicate ConfirmsTarget(target: string, info: DiscoInfo) {
    info.from == target && Identity("account", "registered") in info.identities && NS_PUSH in info.features
  }

  /**
   * Whether `session.get('push_enabled')` is truthy: an unset value is
   * falsy, and any JavaScript array, even an empty one, is truthy.
   */
  predicate Truthy(pushEnabled: Option<seq<string>>) {
    pushEnabled.Some?
  }

  /**
   * The list saved when a request is confirmed: the earlier list (none if
   * unset) with the target appended. Earlier targets stay in it, and the
   * target is included.
   */
  function WithTarget(pushEnabled: Option<seq<string>>, target: string): (r: seq<string>)
    ensures target in r
    ensures pushEnabled.Some? ==> forall t :: t in pushEnabled.value ==> t in r
    ensures pushEnabled.Some? ==> |r| == |pushEnabled.value| + 1 && r[..|pushEnabled.value|] == pushEnabled.value
  {
    match pushEnabled
    case None => [target]
    case Some(targets) => targets + [target]
  }

  /** A fresh negotiation; `pushEnabled` is what the session held before (unset in the tests). */
  function Start(server: AppServer, scope: Scope, bareJid: string, pushEnabled: Option<seq<string>>): Negotiation {
    Negotiation(server, scope, bareJid,
                if server.disable then AwaitingScopeDisco else AwaitingAppServerDisco,
                [], pushEnabled)
  }

  /** One event. Anything the current phase is not waiting for leaves the state as it is. */
  function Step(n: Negotiation, e: Event): Negotiation {
    match (n.phase, e)
    case (AwaitingAppServerDisco, DiscoInfoReceived(info, _)) =>
      if ConfirmsAppServer(n.server, info) then n.(phase := AwaitingScopeDisco) else n
    case (AwaitingScopeDisco, DiscoInfoReceived(info, id)) =>
      if ConfirmsTarget(Target(n.scope, n.bareJid), info) then
        n.(phase := Sent(id), iqStanzas := n.iqStanzas + [StanzaText(n.server, n.scope, id)])
      else n
    case (Sent(id), IqReceived(iqType, answered)) =>
      if iqType == "result" && answered == id then
        n.(phase := Confirmed(id), pushEnabled := Some(WithTarget(n.pushEnabled, Target(n.scope, n.bareJid))))
      else n
    case _ => n
  }

  /** The state after a whole sequence of events. */
  function Run(n: Negotiation, events: seq<Event>): Negotiation
    decreases |events|
  {
    if events == [] then n else Step(Run(n, events[..|events| - 1]), events[|events| - 1])
  }

  // ---------------------------------------------------------------------------
  // What a run has seen

  predicate ConfirmsAppServerEvent(server: AppServer, e: Event) {
    e.DiscoInfoReceived? && ConfirmsAppServer(server, e.info)
  }

  predicate ConfirmsTargetEvent(target: string, e: Event) {
    e.DiscoInfoReceived? && ConfirmsTarget(target, e.info)
  }

  /** The app server confirmed itself among the first `j` events. */
  ghost predicate AppServerConfirmedBefore(server: AppServer, events: seq<Event>, j: nat)
    requires j <= |events|
  {
    exists i :: 0 <= i < j && ConfirmsAppServerEvent(server, events[i])
  }

  /**
   * Event `j` is a target confirmation carrying `id`, after the app server's
   * confirmation unless the server is configured with `disable`. (Only the
   * first such event puts a request on the wire; later ones are ignored.)
   */
  ghost predicate SentAt(server: AppServer, scope: Scope, bareJid: string, events: seq<Event>, j: nat, id: string)
    requires j < |events|
  {
    && ConfirmsTargetEvent(Target(scope, bareJid), events[j])
    && events[j].nextId == id
    && (server.disable || AppServerConfirmedBefore(server, events, j))
  }

  /** Event `k` is a `result` for `id`, and the request with `id` went out earlier. */
  ghost predicate AnsweredAt(server: AppServer, scope: Scope, bareJid: string, events: seq<Event>, k: nat, id: string)
    requires k < |events|
  {
    && events[k] == IqReceived("result", id)
    && exists j :: 0 <= j < k && SentAt(server, scope, bareJid, events, j, id)
  }

  /** What the state looks like in each phase, relative to the session's earlier `push_enabled`. */
  ghost predicate Consistent(n: Negotiation, before: seq<Event>, pushEnabled0: Option<seq<string>>) {
    match n.phase
    case AwaitingAppServerDisco =>
      !n.server.disable && n.iqStanzas == [] && n.pushEnabled == pushEnabled0
    case AwaitingScopeDisco =>
      && n.iqStanzas == [] && n.pushEnabled == pushEnabled0
      && (n.server.disable || AppServerConfirmedBefore(n.server, before, |before|))
    case Sent(id) =>
      && n.iqStanzas == [StanzaText(n.server, n.scope, id)] && n.pushEnabled == pushEnabled0
      && exists j :: 0 <= j < |before| && SentAt(n.server, n.scope, n.bareJid, before, j, id)
    case Confirmed(id) =>
      && n.iqStanzas == [StanzaText(n.server, n.scope, id)]
      && n.pushEnabled == Some(WithTarget(pushEnabled0, Target(n.scope, n.bareJid)))
      && exists k :: 0 <= k < |before| && AnsweredAt(n.server, n.scope, n.bareJid, before, k, id)
  }

  lemma AppServerConfirmedExtends(server: AppServer, events: seq<Event>, m: nat, j: nat)
    requires j <= m <= |events|
    requires AppServerConfirmedBefore(server, events[..m], j)
    ensures AppServerConfirmedBefore(server, events, j)
  {
    var i :| 0 <= i < j && ConfirmsAppServerEvent(server, events[..m][i]);
    assert events[..m][i] == events[i];
  }

  lemma SentAtExtends(server: AppServer, scope: Scope, bareJid: string, events: seq<Event>, m: nat, j: nat, id: string)
    requires j < m <= |events|
    requires SentAt(server, scope, bareJid, events[..m], j, id)
    ensures SentAt(server, scope, bareJid, events, j, id)
  {
    assert events[..m][j] == events[j];
    if !server.disable {
      AppServerConfirmedExtends(server, events, m, j);
    }
  }

  lemma AnsweredAtExtends(server: AppServer, scope: Scope, bareJid: string, events: seq<Event>, m: nat, k: nat, id: string)
    requires k < m <= |events|
    requires AnsweredAt(server, scope, bareJid, events[..m], k, id)
    ensures AnsweredAt(server, scope, bareJid, events, k, id)
  {
    assert events[..m][k] == events[k];
    var j :| 0 <= j < k && SentAt(server, scope, bareJid, events[..m], j, id);
    SentAtExtends(server, scope, bareJid, events, m, j, id);
  }

  /**
   * The invariant of every run from a fresh negotiation: the configuration
   * never changes, and each phase has exactly the history that leads to it.
   */
  lemma {:induction false} RunConsistent(server: AppServer, scope: Scope, bareJid: string,
                                         pushEnabled0: Option<seq<string>>, events: seq<Event>)
    ensures var r := Run(Start(server, scope, bareJid, pushEnabled0), events);
      && r.server == server && r.scope == scope && r.bareJid == bareJid
      && Consistent(r, events, pushEnabled0)
    decreases |events|
  {
    if events != [] {
      var m := |events| - 1;
      var before, e := events[..m], events[m];
      RunConsistent(server, scope, bareJid, pushEnabled0, before);
      var p := Run(Start(server, scope, bareJid, pushEnabled0), before);
      var target := Target(scope, bareJid);
      match p.phase {
        case AwaitingAppServerDisco =>
          if e.DiscoInfoReceived? && ConfirmsAppServer(server, e.info) {
            assert ConfirmsAppServerEvent(server, events[m]);
          }
        case AwaitingScopeDisco =>
          if !server.disable {
            AppServerConfirmedExtends(server, events, m, m);
          }
          if e.DiscoInfoReceived? && ConfirmsTarget(target, e.info) {
            assert SentAt(server, scope, bareJid, events, m, e.nextId);
          }
        case Sent(id) =>
          var j :| 0 <= j < m && SentAt(server, scope, bareJid, before, j, id);
          SentAtExtends(server, scope, bareJid, events, m, j, id);
          if e == IqReceived("result", id) {
            assert AnsweredAt(server, scope, bareJid, events, m, id);
          }
        case Confirmed(id) =>
          var k :| 0 <= k < m && AnsweredAt(server, scope, bareJid, before, k, id);
          AnsweredAtExtends(server, scope, bareJid, events, m, k, id);
      }
    }
  }

  // ---------------------------------------------------------------------------
  // Properties of every run

  /**
   * Ordering: the request goes out at most once, and only after the required
   * disco confirmations: the target's (the bare JID or the group-chat domain)
   * and, before it, the app server's unless the server is configured with
   * `disable`. The stanza carries the id handed out with the target's answer.
   */
  lemma StanzaOnlyAfterDiscos(server: AppServer, scope: Scope, bareJid: string,
                              pushEnabled0: Option<seq<string>>, events: seq<Event>)
    ensures var r := Run(Start(server, scope, bareJid, pushEnabled0), events);
      && |r.iqStanzas| <= 1
      && (r.iqStanzas != [] ==>
            exists j, id :: 0 <= j < |events| && SentAt(server, scope, bareJid, events, j, id)
                             && r.iqStanzas == [StanzaText(server, scope, id)])
  {
    RunConsistent(server, scope, bareJid, pushEnabled0, events);
  }

  /**
   * Without a confirmation from the app server, an enable request never goes
   * out, whatever else arrives.
   */
  lemma NoEnableWithoutAppServer(server: AppServer, scope: Scope, bareJid: string,
                                 pushEnabled0: Option<seq<string>>, events: seq<Event>)
    requires !server.disable
    requires forall i :: 0 <= i < |events| ==> !ConfirmsAppServerEvent(server, events[i])
    ensures Run(Start(server, scope, bareJid, pushEnabled0), events).iqStanzas == []
  {
    RunConsistent(server, scope, bareJid, pushEnabled0, events);
  }

  /**
   * `push_enabled` changes only through a `result` IQ whose id is the id of
   * the request on the wire, and then it gains exactly the target, keeping
   * what it held before (other group-chat domains are not overwritten).
   */
  lemma PushEnabledOnlyAfterResult(server: AppServer, scope: Scope, bareJid: string,
                                   pushEnabled0: Option<seq<string>>, events: seq<Event>)
    ensures var r := Run(Start(server, scope, bareJid, pushEnabled0), events);
      && (r.pushEnabled == pushEnabled0 || r.pushEnabled == Some(WithTarget(pushEnabled0, Target(scope, bareJid))))
      && (r.pushEnabled != pushEnabled0 ==>
            exists k :: 0 <= k < |events| && events[k].IqReceived? && events[k].iqType == "result"
                        && r.iqStanzas == [StanzaText(server, scope, events[k].id)]
                        && AnsweredAt(server, scope, bareJid, events, k, events[k].id))
  {
    RunConsistent(server, scope, bareJid, pushEnabled0, events);
    var r := Run(Start(server, scope, bareJid, pushEnabled0), events);
    if r.pushEnabled != pushEnabled0 {
      assert r.phase.Confirmed?;
    }
  }

  /**
   * What the tests poll for: `push_enabled` becomes truthy exactly when it
   * was already set before the negotiation or a matching `result` has come
   * back. From an unset value, it stays falsy until the request is confirmed.
   */
  lemma PushEnabledTruthyIffConfirmed(server: AppServer, scope: Scope, bareJid: string,
                                      pushEnabled0: Option<seq<string>>, events: seq<Event>)
    ensures var r := Run(Start(server, scope, bareJid, pushEnabled0), events);
      Truthy(r.pushEnabled) <==> Truthy(pushEnabled0) || r.phase.Confirmed?
  {
    RunConsistent(server, scope, bareJid, pushEnabled0, events);
  }

  // ---------------------------------------------------------------------------
  // Progress: the right events, with anything in between, make the negotiation advance

  /** How far a negotiation has come; events never move it back. */
  function Progress(p: Phase): (r: nat)
    ensures r <= 3
    ensures r >= 2 <==> p.Sent? || p.Confirmed?
  {
    match p
    case AwaitingAppServerDisco => 0
    case AwaitingScopeDisco => 1
    case Sent(_) => 2
    case Confirmed(_) => 3
  }

  /** Running two sequences of events one after the other is running their concatenation. */
  lemma {:induction false} RunAppend(n: Negotiation, a: seq<Event>, b: seq<Event>)
    ensures Run(n, a + b) == Run(Run(n, a), b)
    decreases |b|
  {
    if b == [] {
      assert a + b == a;
    } else {
      var m := |b| - 1;
      RunAppend(n, a, b[..m]);
      assert (a + b)[..|a + b| - 1] == a + b[..m];
      assert (a + b)[|a + b| - 1] == b[m];
    }
  }

  /** A confirmed negotiation ignores everything that arrives afterwards. */
  lemma {:induction false} ConfirmedStays(n: Negotiation, events: seq<Event>)
    requires n.phase.Confirmed?
    ensures Run(n, events) == n
    decreases |events|
  {
    if events != [] {
      ConfirmedStays(n, events[..|events| - 1]);
    }
  }

  /** No event moves a negotiation back, and the configuration never changes. */
  lemma {:induction false} RunMonotone(n: Negotiation, events: seq<Event>)
    ensures Progress(Run(n, events).phase) >= Progress(n.phase)
    ensures Run(n, events).server == n.server && Run(n, events).scope == n.scope
    ensures Run(n, events).bareJid == n.bareJid
    decreases |events|
  {
    if events != [] {
      RunMonotone(n, events[..|events| - 1]);
    }
  }

  /**
   * Once the request with `id` is on the wire, a `result` with that id makes
   * `push_enabled` the earlier list with the target appended, whatever
   * arrives afterwards: it is truthy from then on.
   */
  lemma ResultEnablesPush(server: AppServer, scope: Scope, bareJid: string, pushEnabled0: Option<seq<string>>,
                          pre: seq<Event>, id: string, post: seq<Event>)
    requires Run(Start(server, scope, bareJid, pushEnabled0), pre).phase == Sent(id)
    ensures var r := Run(Start(server, scope, bareJid, pushEnabled0), pre + [IqReceived("result", id)] + post);
      && r.pushEnabled == Some(WithTarget(pushEnabled0, Target(scope, bareJid)))
      && Truthy(r.pushEnabled) && r.phase == Confirmed(id)
  {
    var n0 := Start(server, scope, bareJid, pushEnabled0);
    RunConsistent(server, scope, bareJid, pushEnabled0, pre);
    RunAppend(n0, pre, [IqReceived("result", id)]);
    assert Run(Run(n0, pre), [IqReceived("result", id)]) == Step(Run(Run(n0, pre), []), IqReceived("result", id));
    var confirmed := Run(n0, pre + [IqReceived("result", id)]);
    assert confirmed.phase == Confirmed(id);
    RunAppend(n0, pre + [IqReceived("result", id)], post);
    ConfirmedStays(confirmed, post);
  }

  /** Running a prefix one event longer is one more step. */
  lemma RunPrefixStep(n: Negotiation, events: seq<Event>, k: nat)
    requires k < |events|
    ensures Run(n, events[..k + 1]) == Step(Run(n, events[..k]), events[k])
  {
    assert events[..k + 1][..k] == events[..k];
  }

  /** A longer prefix of the same events has come at least as far. */
  lemma RunPrefixMonotone(n: Negotiation, events: seq<Event>, k1: nat, k2: nat)
    requires k1 <= k2 <= |events|
    ensures Progress(Run(n, events[..k2]).phase) >= Progress(Run(n, events[..k1]).phase)
    ensures Run(n, events[..k1]).server == n.server && Run(n, events[..k1]).scope == n.scope
    ensures Run(n, events[..k1]).bareJid == n.bareJid
  {
    assert events[..k2] == events[..k1] + events[k1..k2];
    RunAppend(n, events[..k1], events[k1..k2]);
    RunMonotone(Run(n, events[..k1]), events[k1..k2]);
    RunMonotone(n, events[..k1]);
  }

  /** The whole run has come at least as far as any prefix of it. */
  lemma RunFromPrefix(n: Negotiation, events: seq<Event>, k: nat)
    requires k <= |events|
    ensures Progress(Run(n, events).phase) >= Progress(Run(n, events[..k]).phase)
  {
    assert events == events[..k] + events[k..];
    RunAppend(n, events[..k], events[k..]);
    RunMonotone(Run(n, events[..k]), events[k..]);
  }

  /** A request on the wire after a prefix of the events stays on the wire or gets answered. */
  lemma OnWireAfterPrefix(n: Negotiation, events: seq<Event>, k: nat)
    requires k <= |events|
    requires Run(n, events[..k]).phase.Sent? || Run(n, events[..k]).phase.Confirmed?
    ensures Run(n, events).phase.Sent? || Run(n, events).phase.Confirmed?
  {
    RunFromPrefix(n, events, k);
  }

  /** What one event does to how far a negotiation has come. */
  lemma StepProgress(n: Negotiation, e: Event)
    ensures Progress(Step(n, e).phase) >= Progress(n.phase)
    ensures ConfirmsAppServerEvent(n.server, e) ==> Progress(Step(n, e).phase) >= 1
    ensures ConfirmsTargetEvent(Target(n.scope, n.bareJid), e) && Progress(n.phase) >= 1
            ==> Progress(Step(n, e).phase) >= 2
  {
  }

  /** After event `i`, the app server counts as confirmed if it was already or event `i` confirms it. */
  lemma AppServerStage(n: Negotiation, events: seq<Event>, i: nat)
    requires i < |events|
    requires Progress(n.phase) >= 1 || ConfirmsAppServerEvent(n.server, events[i])
    ensures Progress(Run(n, events[..i + 1]).phase) >= 1
  {
    RunPrefixStep(n, events, i);
    RunPrefixMonotone(n, events, 0, i);
    RunPrefixMonotone(n, events, i, i);
    assert Run(n, events[..0]) == n by { assert events[..0] == []; }
    StepProgress(Run(n, events[..i]), events[i]);
  }

  /** Once the app server counts as confirmed, a later target confirmation puts the request on the wire. */
  lemma TargetStage(n: Negotiation, events: seq<Event>, k: nat, j: nat)
    requires k <= j < |events|
    requires Progress(Run(n, events[..k]).phase) >= 1
    requires ConfirmsTargetEvent(Target(n.scope, n.bareJid), events[j])
    ensures Run(n, events[..j + 1]).phase.Sent? || Run(n, events[..j + 1]).phase.Confirmed?
  {
    RunPrefixMonotone(n, events, k, j);
    RunPrefixMonotone(n, events, j, j);
    RunPrefixStep(n, events, j);
    StepProgress(Run(n, events[..j]), events[j]);
  }

  /**
   * The required confirmations, in order and with anything in between (the
   * group-chat test joins the room first), put the request on the wire: the
   * app server's at some event `i`, then the target's at a later event `j`.
   * With `disable` only the target's, at any event `j`, is needed.
   */
  lemma DiscosSendRequest(server: AppServer, scope: Scope, bareJid: string, pushEnabled0: Option<seq<string>>,
                          events: seq<Event>, i: nat, j: nat)
    requires j < |events|
    requires server.disable || (i < j && ConfirmsAppServerEvent(server, events[i]))
    requires ConfirmsTargetEvent(Target(scope, bareJid), events[j])
    ensures var r := Run(Start(server, scope, bareJid, pushEnabled0), events);
      r.phase.Sent? || r.phase.Confirmed?
  {
    var n0 := Start(server, scope, bareJid, pushEnabled0);
    if server.disable {
      assert Progress(n0.phase) >= 1;
      TargetSendsRequestFrom(n0, events, j);
    } else {
      assert ConfirmsAppServerEvent(n0.server, events[i]);
      DiscosSendRequestFrom(n0, events, i, j);
    }
  }

  /** Once the app server counts as confirmed, the target's confirmation at any event puts the request on the wire. */
  lemma TargetSendsRequestFrom(n: Negotiation, events: seq<Event>, j: nat)
    requires j < |events|
    requires Progress(n.phase) >= 1
    requires ConfirmsTargetEvent(Target(n.scope, n.bareJid), events[j])
    ensures Run(n, events).phase.Sent? || Run(n, events).phase.Confirmed?
  {
    assert Run(n, events[..0]) == n by { assert events[..0] == []; }
    TargetStage(n, events, 0, j);
    OnWireAfterPrefix(n, events, j + 1);
  }

  /** `DiscosSendRequest` from any state: the stages one after the other. */
  lemma DiscosSendRequestFrom(n: Negotiation, events: seq<Event>, i: nat, j: nat)
    requires i < j < |events|
    requires Progress(n.phase) >= 1 || ConfirmsAppServerEvent(n.server, events[i])
    requires ConfirmsTargetEvent(Target(n.scope, n.bareJid), events[j])
    ensures Run(n, events).phase.Sent? || Run(n, events).phase.Confirmed?
  {
    AppServerStage(n, events, i);
    TargetStage(n, events, i + 1, j);
    OnWireAfterPrefix(n, events, j + 1);
  }

  /**
   * The runs the tests drive, for an app server without `disable`: the app
   * server's confirmation, then the target's, then a `result` with the id of
   * the request. The request goes out and `push_enabled` gains the target.
   */
  lemma EnableRun(server: AppServer, scope: Scope, bareJid: string, pushEnabled0: Option<seq<string>>,
                  appServerInfo: DiscoInfo, targetInfo: DiscoInfo, ignoredId: string, id: string)
    requires !server.disable
    requires ConfirmsAppServer(server, appServerInfo)
    requires ConfirmsTarget(Target(scope, bareJid), targetInfo)
    ensures var events := [DiscoInfoReceived(appServerInfo, ignoredId), DiscoInfoReceived(targetInfo, id)];
      var sent := Run(Start(server, scope, bareJid, pushEnabled0), events);
      var done := Run(Start(server, scope, bareJid, pushEnabled0), events + [IqReceived("result", id)]);
      && sent.iqStanzas == [StanzaText(server, scope, id)] && sent.pushEnabled == pushEnabled0
      && done.iqStanzas == sent.iqStanzas
      && done.pushEnabled == Some(WithTarget(pushEnabled0, Target(scope, bareJid)))
      && Truthy(done.pushEnabled) && Target(scope, bareJid) in done.pushEnabled.value
  {
    var n0 := Start(server, scope, bareJid, pushEnabled0);
    var events := [DiscoInfoReceived(appServerInfo, ignoredId), DiscoInfoReceived(targetInfo, id)];
    var all := events + [IqReceived("result", id)];
    assert all[..2] == events && events[..1] == [events[0]] && [events[0]][..0] == [];
    var n1 := Run(n0, [events[0]]);
    assert Run(n0, []) == n0;
    assert n1 == Step(n0, events[0]);
    assert n0.phase == AwaitingAppServerDisco;
    assert n1 == n0.(phase := AwaitingScopeDisco);
    var n2 := Run(n0, events);
    assert n2 == Step(n1, events[1]);
    assert n2 == n1.(phase := Sent(id), iqStanzas := [StanzaText(server, scope, id)]);
    assert Run(n0, all) == Step(n2, IqReceived("result", id));
  }

  /**
   * The disable run: only the target's confirmation is awaited before the
   * `disable` request goes out, and its `result` adds the target to `push_enabled`.
   */
  lemma DisableRun(server: AppServer, scope: Scope, bareJid: string, pushEnabled0: Option<seq<string>>,
                   targetInfo: DiscoInfo, id: string)
    requires server.disable
    requires ConfirmsTarget(Target(scope, bareJid), targetInfo)
    ensures var sent := Run(Start(server, scope, bareJid, pushEnabled0), [DiscoInfoReceived(targetInfo, id)]);
      var done := Run(Start(server, scope, bareJid, pushEnabled0),
                      [DiscoInfoReceived(targetInfo, id), IqReceived("result", id)]);
      && sent.iqStanzas == [StanzaText(server, scope, id)] && sent.pushEnabled == pushEnabled0
      && done.pushEnabled == Some(WithTarget(pushEnabled0, Target(scope, bareJid)))
      && Truthy(done.pushEnabled)
  {
    var events := [DiscoInfoReceived(targetInfo, id), IqReceived("result", id)];
    assert events[..1] == [events[0]] && [events[0]][..0] == [];
  }

  // ---------------------------------------------------------------------------
  // The client object: the connection's IQ log and the session's
  // `push_enabled`, updated in place as events arrive.

  class PushClient {
    const server: AppServer
    const scope: Scope
    const bareJid: string
    var phase: Phase
    var iqStanzas: seq<string>
    var pushEnabled: Option<seq<string>>

    function State(): Negotiation
      reads this
    {
      Negotiation(server, scope, bareJid, phase, iqStanzas, pushEnabled)
    }

    constructor (server: AppServer, scope: Scope, bareJid: string, pushEnabled: Option<seq<string>>)
      ensures State() == Start(server, scope, bareJid, pushEnabled)
    {
      this.server, this.scope, this.bareJid := server, scope, bareJid;
      phase := if server.disable then AwaitingScopeDisco else AwaitingAppServerDisco;
      iqStanzas := [];
      this.pushEnabled := pushEnabled;
    }

    /** A disco#info answer arrives; `nextId` is the id for a stanza sent in reaction. */
    method OnDiscoInfo(info: DiscoInfo, nextId: string)
      modifies this
      ensures State() == Step(old(State()), DiscoInfoReceived(info, nextId))
    {
      if phase == AwaitingAppServerDisco && ConfirmsAppServer(server, info) {
        phase := AwaitingScopeDisco;
      } else if phase == AwaitingScopeDisco && ConfirmsTarget(Target(scope, bareJid), info) {
        iqStanzas := iqStanzas + [StanzaText(server, scope, nextId)];
        phase := Sent(nextId);
      }
    }

    /** An IQ answer of type `iqType` with id `id` arrives. */
    method OnIq(iqType: string, id: string)
      modifies this
      ensures State() == Step(old(State()), IqReceived(iqType, id))
    {
      if phase.Sent? && iqType == "result" && id == phase.id {
        pushEnabled := Some(WithTarget(pushEnabled, Target(scope, bareJid)));
        phase := Confirmed(id);
      }
    }
  }
}
