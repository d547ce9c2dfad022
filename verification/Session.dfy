/**
 * The download session of lpac: the slots of ctx->http._internal and the calls of
 * lpac/euicc/es10b.c, es9p.c and euicc.c that fill and empty them. What the card
 * and the server answer is a parameter of each call.
 */
module Session {
  import opened Bytes

  type Text = seq<byte>

  /** What a server sent for the card to authenticate; its signed part may name a transaction. */
  datatype ServerParam = ServerParam(content: Text, transactionId: Option<Text>)

  datatype State = State(
    tidHttp: Option<Text>, tidBin: Option<Text>,
    challenge: Option<Text>, info1: Option<Text>,
    serverParam: Option<ServerParam>, serverResponse: Option<Text>,
    downloadParam: Option<Text>, downloadResponse: Option<Text>,
    package: Option<Text>, cancelResponse: Option<Text>)

  const EMPTY := State(None, None, None, None, None, None, None, None, None, None)

  /**
   * One call, with the answers it meets. None is a failure of the card, the server or the transport.
   * AuthenticateClient asks a second time when the first reply lacks one of the fields it wants.
   */
  datatype Op =
    | ChallengeAndInfo(challenge: Option<Text>, info1: Option<Text>)
    | Initiate(tid: Option<Text>, param: Option<ServerParam>)
    | AuthenticateServer(response: Option<Text>)
    | AuthenticateClient(first: Option<Text>, second: Option<Text>)
    | DiscoverEvents(found: bool)
    | PrepareDownload(response: Option<Text>)
    | FetchPackage(package: Option<Text>)
    | LoadPackage(installed: bool)
    | Cancel(response: Option<Text>)
    | ReportCancel(accepted: bool)
    | Cleanup

  /** A request to the server: the transaction it names and the item it carries. */
  datatype Post = Post(tid: Option<Text>, item: Text)

  /** Whether a call gets past its guards. */
  predicate Admitted(s: State, op: Op) {
    match op
    case ChallengeAndInfo(_, _) => s.challenge.None? && s.info1.None?
    case Initiate(_, _) => s.serverParam.None? && s.challenge.Some? && s.info1.Some?
    case AuthenticateServer(_) => s.serverResponse.None? && s.serverParam.Some?
    case AuthenticateClient(_, _) => s.downloadParam.None? && s.serverResponse.Some?
    case DiscoverEvents(_) => s.serverResponse.Some?
    case PrepareDownload(_) => s.downloadResponse.None? && s.downloadParam.Some?
    case FetchPackage(_) => s.package.None? && s.downloadResponse.Some?
    case LoadPackage(_) => s.package.Some?
    case Cancel(_) => s.tidBin.Some? && s.tidBin.value != [] && s.cancelResponse.None?
    case ReportCancel(_) => s.cancelResponse.Some?
    case Cleanup => true
  }

  predicate Succeeds(s: State, op: Op) {
    && Admitted(s, op)
    && match op
       case ChallengeAndInfo(c, i) => c.Some? && i.Some?
       case Initiate(t, p) => t.Some? && p.Some?
       case AuthenticateServer(r) => s.serverParam.value.transactionId.Some? && r.Some?
       case AuthenticateClient(a, b) => a.Some? || b.Some?
       case DiscoverEvents(f) => f
       case PrepareDownload(r) => r.Some?
       case FetchPackage(p) => p.Some?
       case LoadPackage(i) => i
       case Cancel(r) => r.Some?
       case ReportCancel(a) => a
       case Cleanup => true
  }

  /** What a successful call leaves. */
  function Done(s: State, op: Op): State
    requires Succeeds(s, op)
  {
    match op
    case ChallengeAndInfo(c, i) => s.(challenge := c, info1 := i)
    case Initiate(t, p) => s.(tidHttp := t, serverParam := p, challenge := None, info1 := None)
    case AuthenticateServer(r) =>
      s.(tidBin := s.serverParam.value.transactionId, serverResponse := r, serverParam := None)
    case AuthenticateClient(a, b) => s.(downloadParam := if a.Some? then a else b, serverResponse := None)
    case DiscoverEvents(_) => s.(serverResponse := None)
    case PrepareDownload(r) => s.(downloadResponse := r, downloadParam := None)
    case FetchPackage(p) => s.(package := p, downloadResponse := None)
    case LoadPackage(_) => s.(package := None)
    case Cancel(r) => s.(cancelResponse := r)
    case ReportCancel(_) => s.(cancelResponse := None)
    case Cleanup => EMPTY
  }

  /**
   * What a call leaves that gets past its guards and then fails. The transaction id is the first
   * field stored, so it stays when a later one is missing.
   */
  function Failed(s: State, op: Op): State {
    match op
    case Initiate(Some(t), _) => s.(tidHttp := Some(t))
    case AuthenticateServer(_) => s.(tidBin := None)
    case LoadPackage(_) => s.(package := None)
    case _ => s
  }

  function Step(s: State, op: Op): State {
    if !Admitted(s, op) then s else if Succeeds(s, op) then Done(s, op) else Failed(s, op)
  }

  /** The requests a call sends on a transaction. */
  function Posted(s: State, op: Op): seq<Post> {
    if !Admitted(s, op) then []
    else match op
      case AuthenticateClient(first, _) =>
        var post := Post(s.tidHttp, s.serverResponse.value);
        if first.Some? then [post] else [post, post]
      case DiscoverEvents(_) => [Post(s.tidHttp, s.serverResponse.value)]
      case FetchPackage(_) => [Post(s.tidHttp, s.downloadResponse.value)]
      case ReportCancel(_) => [Post(s.tidHttp, s.cancelResponse.value)]
      case _ => []
  }

  /** What is held and handed on. */
  datatype Item = Octets(text: Text) | Param(param: ServerParam)

  /** What a call hands to the card or the server, whatever comes of it. */
  function Handed(s: State, op: Op): seq<Item> {
    if !Admitted(s, op) then []
    else match op
      case ChallengeAndInfo(_, _) => []
      case Initiate(_, _) => [Octets(s.challenge.value), Octets(s.info1.value)]
      case AuthenticateServer(_) =>
        if s.serverParam.value.transactionId.Some? then [Param(s.serverParam.value)] else []
      case AuthenticateClient(_, _) => [Octets(s.serverResponse.value)]
      case DiscoverEvents(_) => [Octets(s.serverResponse.value)]
      case PrepareDownload(_) => [Octets(s.downloadParam.value)]
      case FetchPackage(_) => [Octets(s.downloadResponse.value)]
      case LoadPackage(_) => [Octets(s.package.value)]
      case Cancel(_) => [Octets(s.tidBin.value)]
      case ReportCancel(_) => [Octets(s.cancelResponse.value)]
      case Cleanup => []
  }

  // ---- The code

  class Context {
    var transactionIdHttp: Option<Text>
    var transactionIdBin: Option<Text>
    var challenge: Option<Text>
    var info1: Option<Text>
    var serverParam: Option<ServerParam>
    var serverResponse: Option<Text>
    var downloadParam: Option<Text>
    var downloadResponse: Option<Text>
    var package: Option<Text>
    var cancelResponse: Option<Text>

    function View(): State
      reads this
    {
      State(transactionIdHttp, transactionIdBin, challenge, info1, serverParam, serverResponse, downloadParam,
            downloadResponse, package, cancelResponse)
    }

    constructor ()
      ensures View() == EMPTY
    {
      transactionIdHttp, transactionIdBin, challenge, info1 := None, None, None, None;
      serverParam, serverResponse, downloadParam, downloadResponse := None, None, None, None;
      package, cancelResponse := None, None;
    }

    /** lpac/euicc/es10b.c:819-849 */
    method GetEuiccChallengeAndInfo(cardChallenge: Option<Text>, cardInfo1: Option<Text>) returns (ok: bool)
      modifies this
      ensures var op := ChallengeAndInfo(cardChallenge, cardInfo1);
              View() == Step(old(View()), op) && ok == Succeeds(old(View()), op)
    {
      if challenge.Some? {
        return false;
      }
      if info1.Some? {
        return false;
      }
      challenge := cardChallenge;
      if challenge.Some? {
        info1 := cardInfo1;
        if info1.Some? {
          return true;
        }
      }
      challenge := None;
      info1 := None;
      return false;
    }

    /** lpac/euicc/es9p.c:428-464 */
    method InitiateAuthentication(tid: Option<Text>, param: Option<ServerParam>) returns (ok: bool, handed: seq<Item>)
      modifies this
      ensures var op := Initiate(tid, param);
              && View() == Step(old(View()), op) && ok == Succeeds(old(View()), op)
              && handed == Handed(old(View()), op)
    {
      if serverParam.Some? {
        return false, [];
      }
      if challenge.None? {
        return false, [];
      }
      if info1.None? {
        return false, [];
      }
      handed := [Octets(challenge.value), Octets(info1.value)];
      if tid.Some? {
        transactionIdHttp := tid;
        serverParam := param;
      }
      if tid.None? || param.None? {
        serverParam := None;
        return false, handed;
      }
      challenge := None;
      info1 := None;
      return true, handed;
    }

    /** lpac/euicc/es10b.c:851-881, with 508-510 and 661-667 */
    method AuthenticateServer(response: Option<Text>) returns (ok: bool, handed: seq<Item>)
      modifies this
      ensures var op := Op.AuthenticateServer(response);
              && View() == Step(old(View()), op) && ok == Succeeds(old(View()), op)
              && handed == Handed(old(View()), op)
    {
      if serverResponse.Some? {
        return false, [];
      }
      if serverParam.None? {
        return false, [];
      }
      transactionIdBin := None;
      serverResponse := None;
      handed := [];
      if serverParam.value.transactionId.Some? {
        handed := [Param(serverParam.value)];
        transactionIdBin := serverParam.value.transactionId;
        serverResponse := response;
      }
      if transactionIdBin.None? || serverResponse.None? {
        transactionIdBin := None;
        serverResponse := None;
        return false, handed;
      }
      serverParam := None;
      return true, handed;
    }

    /** lpac/euicc/es9p.c:492-521, with the second attempt of 312-349 */
    method AuthenticateClient(first: Option<Text>, second: Option<Text>) returns (ok: bool, sent: seq<Post>)
      modifies this
      ensures var op := Op.AuthenticateClient(first, second);
              && View() == Step(old(View()), op) && ok == Succeeds(old(View()), op)
              && sent == Posted(old(View()), op)
    {
      sent := [];
      if downloadParam.Some? {
        return false, sent;
      }
      if serverResponse.None? {
        return false, sent;
      }
      sent := sent + [Post(transactionIdHttp, serverResponse.value)];
      downloadParam := first;
      if downloadParam.None? {
        sent := sent + [Post(transactionIdHttp, serverResponse.value)];
        downloadParam := second;
      }
      if downloadParam.None? {
        return false, sent;
      }
      serverResponse := None;
      return true, sent;
    }

    /** es11_authenticate_client: lpac/euicc/es9p.c:542-559 */
    method DiscoverEvents(found: bool) returns (ok: bool, sent: seq<Post>)
      modifies this
      ensures var op := Op.DiscoverEvents(found);
              && View() == Step(old(View()), op) && ok == Succeeds(old(View()), op)
              && sent == Posted(old(View()), op)
    {
      if serverResponse.None? {
        return false, [];
      }
      sent := [Post(transactionIdHttp, serverResponse.value)];
      if !found {
        return false, sent;
      }
      serverResponse := None;
      return true, sent;
    }

    /** lpac/euicc/es10b.c:775-802 */
    method PrepareDownload(response: Option<Text>) returns (ok: bool, handed: seq<Item>)
      modifies this
      ensures var op := Op.PrepareDownload(response);
              && View() == Step(old(View()), op) && ok == Succeeds(old(View()), op)
              && handed == Handed(old(View()), op)
    {
      if downloadResponse.Some? {
        return false, [];
      }
      if downloadParam.None? {
        return false, [];
      }
      handed := [Octets(downloadParam.value)];
      downloadResponse := response;
      if downloadResponse.None? {
        return false, handed;
      }
      downloadParam := None;
      return true, handed;
    }

    /** lpac/euicc/es9p.c:466-490 */
    method GetBoundProfilePackage(reply: Option<Text>) returns (ok: bool, sent: seq<Post>)
      modifies this
      ensures var op := FetchPackage(reply);
              && View() == Step(old(View()), op) && ok == Succeeds(old(View()), op)
              && sent == Posted(old(View()), op)
    {
      if package.Some? {
        return false, [];
      }
      if downloadResponse.None? {
        return false, [];
      }
      sent := [Post(transactionIdHttp, downloadResponse.value)];
      package := reply;
      if package.None? {
        return false, sent;
      }
      downloadResponse := None;
      return true, sent;
    }

    /** lpac/euicc/es10b.c:804-817 */
    method LoadBoundProfilePackage(installed: bool) returns (ok: bool, handed: seq<Item>)
      modifies this
      ensures var op := LoadPackage(installed);
              && View() == Step(old(View()), op) && ok == Succeeds(old(View()), op)
              && handed == Handed(old(View()), op)
    {
      if package.None? {
        return false, [];
      }
      handed := [Octets(package.value)];
      package := None;
      return installed, handed;
    }

    /** lpac/euicc/es10b.c:883-911 */
    method CancelSession(response: Option<Text>) returns (ok: bool, handed: seq<Item>)
      modifies this
      ensures var op := Cancel(response);
              && View() == Step(old(View()), op) && ok == Succeeds(old(View()), op)
              && handed == Handed(old(View()), op)
    {
      if transactionIdBin.None? {
        return false, [];
      }
      if transactionIdBin.value == [] {
        return false, [];
      }
      if cancelResponse.Some? {
        return false, [];
      }
      handed := [Octets(transactionIdBin.value)];
      cancelResponse := response;
      return cancelResponse.Some?, handed;
    }

    /** es9p_cancel_session: lpac/euicc/es9p.c:523-540 */
    method ReportCancel(accepted: bool) returns (ok: bool, sent: seq<Post>)
      modifies this
      ensures var op := Op.ReportCancel(accepted);
              && View() == Step(old(View()), op) && ok == Succeeds(old(View()), op)
              && sent == Posted(old(View()), op)
    {
      if cancelResponse.None? {
        return false, [];
      }
      sent := [Post(transactionIdHttp, cancelResponse.value)];
      if !accepted {
        return false, sent;
      }
      cancelResponse := None;
      return true, sent;
    }

    /** euicc_http_cleanup: lpac/euicc/euicc.c:184-198 */
    method HttpCleanup()
      modifies this
      ensures View() == Step(old(View()), Cleanup)
    {
      transactionIdHttp, transactionIdBin, challenge, info1 := None, None, None, None;
      serverParam, serverResponse, downloadParam, downloadResponse := None, None, None, None;
      package, cancelResponse := None, None;
    }
  }

  // ---- Whole runs

  function Run(ops: seq<Op>): State {
    if ops == [] then EMPTY else Step(Run(Init(ops)), Last(ops))
  }

  /** How often each stage has come to a result since the last cleanup; for loads, how often one was begun. */
  datatype Tally = Tally(challenges: nat, initiations: nat, serversAuthenticated: nat, clientsAuthenticated: nat,
                         discoveries: nat, preparations: nat, packages: nat, loads: nat, cancels: nat, reports: nat)

  const NOTHING := Tally(0, 0, 0, 0, 0, 0, 0, 0, 0, 0)

  function Count(t: Tally, s: State, op: Op): Tally {
    if !(if op.LoadPackage? then Admitted(s, op) else Succeeds(s, op)) then t
    else match op
      case ChallengeAndInfo(_, _) => t.(challenges := t.challenges + 1)
      case Initiate(_, _) => t.(initiations := t.initiations + 1)
      case AuthenticateServer(_) => t.(serversAuthenticated := t.serversAuthenticated + 1)
      case AuthenticateClient(_, _) => t.(clientsAuthenticated := t.clientsAuthenticated + 1)
      case DiscoverEvents(_) => t.(discoveries := t.discoveries + 1)
      case PrepareDownload(_) => t.(preparations := t.preparations + 1)
      case FetchPackage(_) => t.(packages := t.packages + 1)
      case LoadPackage(_) => t.(loads := t.loads + 1)
      case Cancel(_) => t.(cancels := t.cancels + 1)
      case ReportCancel(_) => t.(reports := t.reports + 1)
      case Cleanup => NOTHING
  }

  function Counted(ops: seq<Op>): Tally {
    if ops == [] then NOTHING else Count(Counted(Init(ops)), Run(Init(ops)), Last(ops))
  }

  function Held<T>(slot: Option<T>): nat {
    if slot.Some? then 1 else 0
  }

  /** For each stage, what was made less what was used up is what the slot holds. */
  predicate Balanced(s: State, t: Tally) {
    && t.challenges - t.initiations == Held(s.challenge) == Held(s.info1)
    && t.initiations - t.serversAuthenticated == Held(s.serverParam)
    && t.serversAuthenticated - t.clientsAuthenticated - t.discoveries == Held(s.serverResponse)
    && t.clientsAuthenticated - t.preparations == Held(s.downloadParam)
    && t.preparations - t.packages == Held(s.downloadResponse)
    && t.packages - t.loads == Held(s.package)
    && t.cancels - t.reports == Held(s.cancelResponse)
  }

  lemma BalancedStep(s: State, t: Tally, op: Op)
    requires Balanced(s, t)
    ensures Balanced(Step(s, op), Count(t, s, op))
  {
    hide Done, Failed, Admitted, Balanced, Count;
    if Succeeds(s, op) {
      BalancedDone(s, t, op);
    } else {
      BalancedOtherwise(s, t, op);
    }
  }

  lemma BalancedDone(s: State, t: Tally, op: Op)
    requires Balanced(s, t) && Succeeds(s, op)
    ensures Balanced(Done(s, op), Count(t, s, op))
  {
  }

  lemma BalancedOtherwise(s: State, t: Tally, op: Op)
    requires Balanced(s, t) && !Succeeds(s, op)
    ensures Balanced(if Admitted(s, op) then Failed(s, op) else s, Count(t, s, op))
  {
  }

  lemma {:induction false} Conserved(ops: seq<Op>)
    ensures Balanced(Run(ops), Counted(ops))
  {
    hide Balanced, Step, Count;
    if ops != [] {
      Conserved(Init(ops));
      BalancedStep(Run(Init(ops)), Counted(Init(ops)), Last(ops));
    } else {
      BalancedStart();
    }
  }

  lemma BalancedStart()
    ensures Balanced(EMPTY, NOTHING)
  {
  }

  /** No stage comes to a result more often than the stages before it. */
  lemma NoStageOutrunsAnEarlier(ops: seq<Op>)
    ensures var t := Counted(ops);
            && t.loads <= t.packages <= t.preparations <= t.clientsAuthenticated
            && t.clientsAuthenticated <= t.serversAuthenticated <= t.initiations <= t.challenges
            && t.challenges <= t.loads + t.discoveries + 6
  {
    Conserved(ops);
  }

  /** The challenge and the card's information come and go together; a server response keeps its transaction. */
  lemma {:induction false} HeldTogether(ops: seq<Op>)
    ensures var s := Run(ops);
            && (s.challenge.Some? <==> s.info1.Some?)
            && (s.serverResponse.Some? ==> s.tidBin.Some?)
  {
    if ops != [] {
      HeldTogether(Init(ops));
    }
  }

  /** After a cleanup the past does not matter. */
  lemma {:induction false} CleanupForgets(before: seq<Op>, after: seq<Op>)
    ensures Run(before + [Cleanup] + after) == Run(after)
    ensures Counted(before + [Cleanup] + after) == Counted(after)
  {
    var all := before + [Cleanup] + after;
    if after == [] {
      assert Last(all) == Cleanup;
    } else {
      CleanupForgets(before, Init(after));
      assert Init(all) == before + [Cleanup] + Init(after) && Last(all) == Last(after);
    }
  }

  // ---- What a slot holds

  datatype Slot =
    | Challenge | CardInfo | ServerParameters | ServerAnswer | CardTransaction
    | DownloadParameters | DownloadAnswer | BoundPackage | CancelAnswer

  function AsItem(t: Option<Text>): Option<Item> {
    if t.Some? then Some(Octets(t.value)) else None
  }

  function In(s: State, slot: Slot): Option<Item> {
    match slot
    case Challenge => AsItem(s.challenge)
    case CardInfo => AsItem(s.info1)
    case ServerParameters => if s.serverParam.Some? then Some(Param(s.serverParam.value)) else None
    case ServerAnswer => AsItem(s.serverResponse)
    case CardTransaction => AsItem(s.tidBin)
    case DownloadParameters => AsItem(s.downloadParam)
    case DownloadAnswer => AsItem(s.downloadResponse)
    case BoundPackage => AsItem(s.package)
    case CancelAnswer => AsItem(s.cancelResponse)
  }

  /** What a call brings for a slot: the answer it met, or the transaction that the parameters it used up name. */
  function Delivered(s: State, op: Op, slot: Slot): Option<Item> {
    match slot
    case Challenge => if op.ChallengeAndInfo? then AsItem(op.challenge) else None
    case CardInfo => if op.ChallengeAndInfo? then AsItem(op.info1) else None
    case ServerParameters =>
      if op.Initiate? && op.param.Some? then Some(Param(op.param.value)) else None
    case ServerAnswer => if op.AuthenticateServer? then AsItem(op.response) else None
    case CardTransaction =>
      if op.AuthenticateServer? && s.serverParam.Some? then AsItem(s.serverParam.value.transactionId) else None
    case DownloadParameters =>
      if !op.AuthenticateClient? then None else if op.first.Some? then AsItem(op.first) else AsItem(op.second)
    case DownloadAnswer => if op.PrepareDownload? then AsItem(op.response) else None
    case BoundPackage => if op.FetchPackage? then AsItem(op.package) else None
    case CancelAnswer => if op.Cancel? then AsItem(op.response) else None
  }

  /** The slots a call hands on. */
  function Uses(op: Op): seq<Slot> {
    match op
    case ChallengeAndInfo(_, _) => []
    case Initiate(_, _) => [Challenge, CardInfo]
    case AuthenticateServer(_) => [ServerParameters]
    case AuthenticateClient(_, _) => [ServerAnswer]
    case DiscoverEvents(_) => [ServerAnswer]
    case PrepareDownload(_) => [DownloadParameters]
    case FetchPackage(_) => [DownloadAnswer]
    case LoadPackage(_) => [BoundPackage]
    case Cancel(_) => [CardTransaction]
    case ReportCancel(_) => [CancelAnswer]
    case Cleanup => []
  }

  predicate Makes(s: State, op: Op, slot: Slot) {
    Succeeds(s, op) && Delivered(s, op, slot).Some?
  }

  /** The slots a call fills when it succeeds, all of which must be empty before. */
  function Fills(op: Op): seq<Slot> {
    match op
    case ChallengeAndInfo(_, _) => [Challenge, CardInfo]
    case Initiate(_, _) => [ServerParameters]
    case AuthenticateServer(_) => [ServerAnswer]
    case AuthenticateClient(_, _) => [DownloadParameters]
    case PrepareDownload(_) => [DownloadAnswer]
    case FetchPackage(_) => [BoundPackage]
    case Cancel(_) => [CancelAnswer]
    case _ => []
  }

  /** A call gets past its guards exactly when what it uses is held and what it fills is empty. */
  lemma AdmittedExactly(s: State, op: Op)
    ensures Admitted(s, op) <==>
              && (forall slot :: slot in Uses(op) ==> In(s, slot).Some?)
              && (forall slot :: slot in Fills(op) ==> In(s, slot).None?)
              && (op.Cancel? ==> s.tidBin != Some([]))
  {
    match op
    case Initiate(_, _) => assert Challenge in Uses(op) && CardInfo in Uses(op) && ServerParameters in Fills(op);
    case ChallengeAndInfo(_, _) => assert Challenge in Fills(op) && CardInfo in Fills(op);
    case AuthenticateServer(_) => assert ServerParameters in Uses(op) && ServerAnswer in Fills(op);
    case AuthenticateClient(_, _) => assert ServerAnswer in Uses(op) && DownloadParameters in Fills(op);
    case DiscoverEvents(_) => assert ServerAnswer in Uses(op);
    case PrepareDownload(_) => assert DownloadParameters in Uses(op) && DownloadAnswer in Fills(op);
    case FetchPackage(_) => assert DownloadAnswer in Uses(op) && BoundPackage in Fills(op);
    case LoadPackage(_) => assert BoundPackage in Uses(op);
    case Cancel(_) => assert CardTransaction in Uses(op) && CancelAnswer in Fills(op);
    case ReportCancel(_) => assert CancelAnswer in Uses(op);
    case Cleanup =>
  }

  /** What the world says to a call that only reports or uses up. */
  predicate Agreed(op: Op) {
    match op
    case DiscoverEvents(found) => found
    case LoadPackage(installed) => installed
    case ReportCancel(accepted) => accepted
    case Initiate(tid, _) => tid.Some?
    case _ => true
  }

  /** It succeeds exactly when, besides, everything it asks for comes. */
  lemma SucceedsExactly(s: State, op: Op)
    ensures Succeeds(s, op) <==>
              && Admitted(s, op) && Agreed(op)
              && (forall slot :: slot in Fills(op) ==> Delivered(s, op, slot).Some?)
              && (op.AuthenticateServer? ==> Delivered(s, op, CardTransaction).Some?)
  {
    hide Admitted;
    match op
    case ChallengeAndInfo(_, _) => assert Challenge in Fills(op) && CardInfo in Fills(op);
    case Initiate(_, _) => assert ServerParameters in Fills(op);
    case AuthenticateServer(_) => ServerHeld(s, op);
    case AuthenticateClient(_, _) => assert DownloadParameters in Fills(op);
    case PrepareDownload(_) => assert DownloadAnswer in Fills(op);
    case FetchPackage(_) => assert BoundPackage in Fills(op);
    case Cancel(_) => assert CancelAnswer in Fills(op);
    case _ =>
  }

  lemma ServerHeld(s: State, op: Op)
    requires op.AuthenticateServer?
    ensures ServerAnswer in Fills(op) && (Admitted(s, op) ==> s.serverParam.Some?)
  {
  }

  /** The calls that empty a slot: those that use it up, a cleanup, and two that let go of it when they fail. */
  predicate Clears(s: State, op: Op, slot: Slot) {
    || op.Cleanup?
    || (Succeeds(s, op) && slot in Uses(op) && slot != CardTransaction)
    || (Admitted(s, op) && op.LoadPackage? && slot == BoundPackage)
    || (Admitted(s, op) && op.AuthenticateServer? && !Succeeds(s, op) && slot == CardTransaction)
  }

  /** Slot by slot, what every call does: it fills, or empties, or leaves alone. */
  lemma SlotExactly(s: State, op: Op, slot: Slot)
    ensures In(Step(s, op), slot) == if Makes(s, op, slot) then Delivered(s, op, slot)
                                     else if Clears(s, op, slot) then None else In(s, slot)
  {
    hide Admitted, Succeeds;
    AlwaysAdmitted(s, op);
    if Succeeds(s, op) {
      SlotAfterSuccess(s, op, slot);
    } else if Admitted(s, op) {
      SlotAfterFailure(s, op, slot);
    }
  }

  lemma AlwaysAdmitted(s: State, op: Op)
    ensures op.Cleanup? ==> Succeeds(s, op)
    ensures Succeeds(s, op) ==> Admitted(s, op)
  {
  }

  lemma SlotAfterSuccess(s: State, op: Op, slot: Slot)
    requires Succeeds(s, op)
    ensures In(Done(s, op), slot) == if Delivered(s, op, slot).Some? then Delivered(s, op, slot)
                                     else if Clears(s, op, slot) then None else In(s, slot)
  {
    match op
    case Initiate(_, _) => assert Uses(op) == [Challenge, CardInfo];
    case _ =>
  }

  lemma SlotAfterFailure(s: State, op: Op, slot: Slot)
    requires Admitted(s, op) && !Succeeds(s, op)
    ensures In(Failed(s, op), slot) == if Clears(s, op, slot) then None else In(s, slot)
  {
    hide Succeeds;
    AlwaysAdmitted(s, op);
  }

  /** The k-th call succeeded and brought something for the slot. */
  predicate Made(ops: seq<Op>, k: int, slot: Slot)
    requires 0 <= k < |ops|
  {
    Makes(Run(ops[..k]), ops[k], slot)
  }

  /**
   * The k-th call is the last so far to make something for the slot, it brought this, and no
   * later call has emptied the slot.
   */
  predicate LastMade(ops: seq<Op>, k: int, slot: Slot, item: Item) {
    && 0 <= k < |ops| && Made(ops, k, slot) && Delivered(Run(ops[..k]), ops[k], slot) == Some(item)
    && forall n :: k < n < |ops| ==> Spared(ops, n, slot)
  }

  /** The n-th call neither makes anything for the slot nor empties it. */
  predicate Spared(ops: seq<Op>, n: int, slot: Slot)
    requires 0 <= n < |ops|
  {
    !Makes(Run(ops[..n]), ops[n], slot) && !Clears(Run(ops[..n]), ops[n], slot)
  }

  ghost predicate FromItsMaker(ops: seq<Op>, slot: Slot, item: Item) {
    exists k :: LastMade(ops, k, slot, item)
  }

  /** Over every run, a slot holds exactly what the last call that made it was given, as long as nothing empties it. */
  lemma {:induction false} HeldExactly(ops: seq<Op>, slot: Slot, item: Item)
    ensures In(Run(ops), slot) == Some(item) <==> FromItsMaker(ops, slot, item)
  {
    hide Step, Makes, Clears, In, Delivered, Run;
    if ops == [] {
      NothingIn(slot);
    } else {
      var init, op := Init(ops), Last(ops);
      RunLast(ops);
      SlotExactly(Run(init), op, slot);
      HeldExactly(init, slot, item);
      assert ops[..|init|] == init;
      if In(Run(ops), slot) == Some(item) {
        if Makes(Run(init), op, slot) {
          assert LastMade(ops, |init|, slot, item);
        } else {
          var k :| LastMade(init, k, slot, item);
          LastMadeLater(ops, k, slot, item);
        }
      } else if k :| LastMade(ops, k, slot, item) {
        if k < |init| {
          LastMadeLater(ops, k, slot, item);
        }
      }
    }
  }

  lemma RunLast(ops: seq<Op>)
    requires ops != []
    ensures Run(ops) == Step(Run(Init(ops)), Last(ops))
  {
  }

  lemma NothingIn(slot: Slot)
    ensures In(Run([]), slot).None?
  {
  }

  lemma LastMadeLater(ops: seq<Op>, k: int, slot: Slot, item: Item)
    requires ops != [] && 0 <= k < |ops| - 1
    ensures LastMade(ops, k, slot, item)
       <==> LastMade(Init(ops), k, slot, item) && Spared(ops, |ops| - 1, slot)
  {
    hide Makes, Clears, Delivered, Run;
    var init := Init(ops);
    assert ops[..k] == init[..k] && ops[..|init|] == init;
    forall n | k < n < |init|
      ensures Spared(ops, n, slot) <==> Spared(init, n, slot)
    {
      assert ops[..n] == init[..n];
    }
  }

  /**
   * Over every run, what a call hands to the card or the server is exactly what the last call that
   * made it was given; in particular a load hands over the latest package fetched.
   */
  lemma HandedIsDelivered(ops: seq<Op>, op: Op, i: nat)
    requires i < |Handed(Run(ops), op)|
    ensures i < |Uses(op)| && FromItsMaker(ops, Uses(op)[i], Handed(Run(ops), op)[i])
  {
    hide Run, LastMade;
    HandedIsHeld(Run(ops), op, i);
    HeldExactly(ops, Uses(op)[i], Handed(Run(ops), op)[i]);
  }

  lemma HandedIsHeld(s: State, op: Op, i: nat)
    requires i < |Handed(s, op)|
    ensures i < |Uses(op)| && In(s, Uses(op)[i]) == Some(Handed(s, op)[i])
  {
  }

  /** An admitted call hands on all it uses, but for server parameters that name no transaction. */
  lemma HandedInFull(s: State, op: Op)
    ensures !Admitted(s, op) ==> Handed(s, op) == [] && Posted(s, op) == []
    ensures Admitted(s, op) && (op.AuthenticateServer? ==> Delivered(s, op, CardTransaction).Some?) ==>
              |Handed(s, op)| == |Uses(op)|
  {
  }

  /** One request goes out, or two where authenticateClient asks again, and it carries the item handed on. */
  lemma PostsCarryTheItem(s: State, op: Op)
    requires Admitted(s, op)
    ensures |Posted(s, op)| == if op.AuthenticateClient? && op.first.None? then 2
                               else if Uses(op) in [[ServerAnswer], [DownloadAnswer], [CancelAnswer]] then 1 else 0
    ensures forall j :: 0 <= j < |Posted(s, op)| ==> Handed(s, op) == [Octets(Posted(s, op)[j].item)]
  {
  }

  // ---- Which initiation an item comes from

  /**
   * The index of the initiation each slot goes back to; loaded lists the initiations
   * of the packages handed to the card, in order.
   */
  datatype Origins = Origins(
    tidHttp: Option<int>, tidBin: Option<int>, serverParam: Option<int>, serverResponse: Option<int>,
    downloadParam: Option<int>, downloadResponse: Option<int>, package: Option<int>, cancelResponse: Option<int>,
    loaded: seq<int>)

  function OriginDone(o: Origins, op: Op, at: nat): Origins {
    match op
    case ChallengeAndInfo(_, _) => o
    case Initiate(_, _) => o.(tidHttp := Some(at), serverParam := Some(at))
    case AuthenticateServer(_) => o.(tidBin := o.serverParam, serverResponse := o.serverParam, serverParam := None)
    case AuthenticateClient(_, _) => o.(downloadParam := o.serverResponse, serverResponse := None)
    case DiscoverEvents(_) => o.(serverResponse := None)
    case PrepareDownload(_) => o.(downloadResponse := o.downloadParam, downloadParam := None)
    case FetchPackage(_) => o.(package := o.downloadResponse, downloadResponse := None)
    case LoadPackage(_) => o.(loaded := o.loaded + Listed(o.package), package := None)
    case Cancel(_) => o.(cancelResponse := o.tidBin)
    case ReportCancel(_) => o.(cancelResponse := None)
    case Cleanup => Origins(None, None, None, None, None, None, None, None, o.loaded)
  }

  function OriginFailed(o: Origins, op: Op, at: nat): Origins {
    match op
    case Initiate(Some(_), _) => o.(tidHttp := Some(at))
    case AuthenticateServer(_) => o.(tidBin := None)
    case LoadPackage(_) => o.(loaded := o.loaded + Listed(o.package), package := None)
    case _ => o
  }

  function OriginStep(s: State, o: Origins, op: Op, at: nat): Origins {
    if !Admitted(s, op) then o else if Succeeds(s, op) then OriginDone(o, op, at) else OriginFailed(o, op, at)
  }

  function OriginsOf(ops: seq<Op>): Origins {
    if ops == [] then Origins(None, None, None, None, None, None, None, None, [])
    else OriginStep(Run(Init(ops)), OriginsOf(Init(ops)), Last(ops), |ops| - 1)
  }

  function Listed(o: Option<int>): (l: seq<int>) {
    if o.Some? then [o.value] else []
  }

  /** The initiations under way, the furthest along first, after those already loaded. */
  function Line(o: Origins): seq<int> {
    o.loaded + Listed(o.package) + Listed(o.downloadResponse) + Listed(o.downloadParam)
    + Listed(o.serverResponse) + Listed(o.serverParam)
  }

  /** Every held item has an origin and every origin belongs to a held item. */
  predicate Mirrored(s: State, o: Origins) {
    && (s.tidHttp.Some? <==> o.tidHttp.Some?) && (s.tidBin.Some? <==> o.tidBin.Some?)
    && (s.serverParam.Some? <==> o.serverParam.Some?) && (s.serverResponse.Some? <==> o.serverResponse.Some?)
    && (s.downloadParam.Some? <==> o.downloadParam.Some?)
    && (s.downloadResponse.Some? <==> o.downloadResponse.Some?)
    && (s.package.Some? <==> o.package.Some?) && (s.cancelResponse.Some? <==> o.cancelResponse.Some?)
  }

  lemma MirroredStep(s: State, o: Origins, op: Op, at: nat)
    requires Mirrored(s, o)
    ensures Mirrored(Step(s, op), OriginStep(s, o, op, at))
  {
    hide Done, OriginDone, Failed, OriginFailed, Admitted, Mirrored, Succeeds;
    if Succeeds(s, op) {
      MirroredDone(s, o, op, at);
    } else if Admitted(s, op) {
      MirroredFailed(s, o, op, at);
    }
  }

  lemma MirroredDone(s: State, o: Origins, op: Op, at: nat)
    requires Mirrored(s, o) && Succeeds(s, op)
    ensures Mirrored(Done(s, op), OriginDone(o, op, at))
  {
    hide Done, OriginDone, Admitted, Mirrored, Succeeds;
    match op
    case Initiate(tid, param) => MirroredInitiate(s, o, tid, param, at);
    case AuthenticateServer(response) => MirroredServer(s, o, response, at);
    case AuthenticateClient(first, second) => MirroredClient(s, o, first, second, at);
    case PrepareDownload(response) => MirroredPrepare(s, o, response, at);
    case FetchPackage(package) => MirroredFetch(s, o, package, at);
    case Cancel(response) => MirroredCancel(s, o, response, at);
    case _ => MirroredOther(s, o, op, at);
  }

  lemma MirroredInitiate(s: State, o: Origins, tid: Option<Text>, param: Option<ServerParam>, at: nat)
    requires Mirrored(s, o) && Succeeds(s, Initiate(tid, param))
    ensures Mirrored(Done(s, Initiate(tid, param)), OriginDone(o, Initiate(tid, param), at))
  {
  }

  lemma MirroredServer(s: State, o: Origins, response: Option<Text>, at: nat)
    requires Mirrored(s, o) && Succeeds(s, AuthenticateServer(response))
    ensures Mirrored(Done(s, AuthenticateServer(response)), OriginDone(o, AuthenticateServer(response), at))
  {
  }

  lemma MirroredClient(s: State, o: Origins, first: Option<Text>, second: Option<Text>, at: nat)
    requires Mirrored(s, o) && Succeeds(s, AuthenticateClient(first, second))
    ensures Mirrored(Done(s, AuthenticateClient(first, second)), OriginDone(o, AuthenticateClient(first, second), at))
  {
  }

  lemma MirroredPrepare(s: State, o: Origins, response: Option<Text>, at: nat)
    requires Mirrored(s, o) && Succeeds(s, PrepareDownload(response))
    ensures Mirrored(Done(s, PrepareDownload(response)), OriginDone(o, PrepareDownload(response), at))
  {
  }

  lemma MirroredFetch(s: State, o: Origins, package: Option<Text>, at: nat)
    requires Mirrored(s, o) && Succeeds(s, FetchPackage(package))
    ensures Mirrored(Done(s, FetchPackage(package)), OriginDone(o, FetchPackage(package), at))
  {
  }

  lemma MirroredCancel(s: State, o: Origins, response: Option<Text>, at: nat)
    requires Mirrored(s, o) && Succeeds(s, Cancel(response))
    ensures Mirrored(Done(s, Cancel(response)), OriginDone(o, Cancel(response), at))
  {
  }

  /** The calls that only empty slots. */
  lemma MirroredOther(s: State, o: Origins, op: Op, at: nat)
    requires Mirrored(s, o) && Succeeds(s, op)
    requires op.ChallengeAndInfo? || op.DiscoverEvents? || op.LoadPackage? || op.ReportCancel? || op.Cleanup?
    ensures Mirrored(Done(s, op), OriginDone(o, op, at))
  {
    hide Admitted;
  }

  lemma MirroredFailed(s: State, o: Origins, op: Op, at: nat)
    requires Mirrored(s, o)
    ensures Mirrored(Failed(s, op), OriginFailed(o, op, at))
  {
    hide Mirrored;
    match op
    case Initiate(Some(tid), _) => NewIdMirrored(s, o, tid, at);
    case AuthenticateServer(_) => OldIdMirrored(s, o);
    case LoadPackage(_) => NoPackageMirrored(s, o);
    case _ =>
  }

  lemma NewIdMirrored(s: State, o: Origins, tid: Text, at: nat)
    requires Mirrored(s, o)
    ensures Mirrored(s.(tidHttp := Some(tid)), o.(tidHttp := Some(at)))
  {
  }

  lemma OldIdMirrored(s: State, o: Origins)
    requires Mirrored(s, o)
    ensures Mirrored(s.(tidBin := None), o.(tidBin := None))
  {
  }

  lemma NoPackageMirrored(s: State, o: Origins)
    requires Mirrored(s, o)
    ensures Mirrored(s.(package := None), o.(loaded := o.loaded + Listed(o.package), package := None))
  {
  }

  lemma {:induction false} OriginsMirror(ops: seq<Op>)
    ensures Mirrored(Run(ops), OriginsOf(ops))
  {
    hide Step, OriginStep, Succeeds, Admitted;
    if ops != [] {
      OriginsMirror(Init(ops));
      MirroredStep(Run(Init(ops)), OriginsOf(Init(ops)), Last(ops), |ops| - 1);
    }
  }

  predicate Ascending(l: seq<int>, below: nat) {
    && (forall i, j :: 0 <= i < j < |l| ==> l[i] < l[j])
    && (forall i :: 0 <= i < |l| ==> l[i] < below)
  }

  lemma {:induction false} InOrder(ops: seq<Op>)
    ensures Ascending(Line(OriginsOf(ops)), |ops|)
  {
    hide Step, OriginStep, Line, Ascending, Mirrored;
    if ops == [] {
      AscendingStart();
    } else {
      InOrder(Init(ops));
      OriginsMirror(Init(ops));
      LineStep(Run(Init(ops)), OriginsOf(Init(ops)), Last(ops), |ops| - 1);
    }
  }

  lemma LineStep(s: State, o: Origins, op: Op, at: nat)
    requires Mirrored(s, o) && Ascending(Line(o), at)
    ensures Ascending(Line(OriginStep(s, o, op, at)), at + 1)
  {
    hide Ascending, Line, OriginDone, OriginFailed, Succeeds, Admitted, Mirrored;
    AscendingLater(Line(o), at);
    if Admitted(s, op) {
      if Succeeds(s, op) {
        LineDone(s, o, op, at);
      } else {
        LineFailed(o, op, at);
      }
    }
  }

  lemma LineFailed(o: Origins, op: Op, at: nat)
    ensures Line(OriginFailed(o, op, at)) == Line(o)
  {
    Onward(o.loaded, Listed(o.package));
  }

  lemma Onward(front: seq<int>, x: seq<int>)
    ensures front + [] + x == front + x == front + x + []
  {
  }

  lemma LineDone(s: State, o: Origins, op: Op, at: nat)
    requires Mirrored(s, o) && Succeeds(s, op)
    requires Ascending(Line(o), at) && Ascending(Line(o), at + 1)
    ensures Ascending(Line(OriginDone(o, op, at)), at + 1)
  {
    hide Ascending;
    match op
    case Initiate(_, _) =>
      Onward(o.loaded + Listed(o.package) + Listed(o.downloadResponse) + Listed(o.downloadParam)
             + Listed(o.serverResponse), [at]);
      AscendingSnoc(Line(o), at);
    case DiscoverEvents(_) =>
      var front := o.loaded + Listed(o.package) + Listed(o.downloadResponse) + Listed(o.downloadParam);
      AscendingWithout(front, Listed(o.serverResponse), Listed(o.serverParam), at + 1);
      Onward(front, Listed(o.serverParam));
    case Cleanup =>
      var rest := Line(o)[|o.loaded|..];
      assert Line(o) == o.loaded + rest + [];
      AscendingWithout(o.loaded, rest, [], at + 1);
      Onward(o.loaded, []);
    case _ =>
      LineMoves(s, o, op, at);
  }

  /** The slot a call fills was empty. */
  lemma TargetIsEmpty(s: State, o: Origins, op: Op)
    requires Mirrored(s, o) && Succeeds(s, op)
    ensures op.AuthenticateServer? ==> o.serverResponse.None?
    ensures op.AuthenticateClient? ==> o.downloadParam.None?
    ensures op.PrepareDownload? ==> o.downloadResponse.None?
    ensures op.FetchPackage? ==> o.package.None?
  {
  }

  /** A stage that uses up one item and makes the next leaves the line as it is. */
  lemma LineMoves(s: State, o: Origins, op: Op, at: nat)
    requires Mirrored(s, o) && Succeeds(s, op)
    requires !op.Initiate? && !op.DiscoverEvents? && !op.Cleanup?
    ensures Line(OriginDone(o, op, at)) == Line(o)
  {
    TargetIsEmpty(s, o, op);
    hide Mirrored, Succeeds;
    var front1 := o.loaded + Listed(o.package);
    var front2 := front1 + Listed(o.downloadResponse);
    var front3 := front2 + Listed(o.downloadParam);
    match op
    case AuthenticateServer(_) =>
      Onward(front3, Listed(o.serverParam));
    case AuthenticateClient(_, _) =>
      Onward(front2, Listed(o.serverResponse));
    case PrepareDownload(_) =>
      Onward(front1, Listed(o.downloadParam));
    case FetchPackage(_) =>
      Onward(o.loaded, Listed(o.downloadResponse));
    case LoadPackage(_) =>
      Onward(o.loaded, Listed(o.package));
    case _ =>
  }

  lemma AscendingLater(l: seq<int>, at: nat)
    requires Ascending(l, at)
    ensures Ascending(l, at + 1)
  {
  }

  lemma AscendingSnoc(l: seq<int>, at: nat)
    requires Ascending(l, at)
    ensures Ascending(l + [at], at + 1)
  {
  }

  lemma AscendingWithout(a: seq<int>, x: seq<int>, b: seq<int>, at: nat)
    requires Ascending(a + x + b, at)
    ensures Ascending(a + b, at)
  {
    var l := a + x + b;
    assert forall i :: 0 <= i < |a| ==> l[i] == a[i];
    assert forall i :: 0 <= i < |b| ==> l[|a| + |x| + i] == b[i];
  }

  /** The k-th call was an initiation that succeeded. */
  predicate Initiated(ops: seq<Op>, k: int)
    requires 0 <= k < |ops|
  {
    ops[k].Initiate? && Succeeds(Run(ops[..k]), ops[k])
  }

  /** Every origin in the line is an initiation that succeeded. */
  lemma {:induction false} LineIsInitiated(ops: seq<Op>)
    ensures forall k :: k in Line(OriginsOf(ops)) ==> 0 <= k < |ops| && Initiated(ops, k)
  {
    hide Run, OriginsOf, Succeeds, Line, OriginStep, Step;
    if ops == [] {
      LineStart();
    } else {
      var init, n := Init(ops), |ops| - 1;
      LineIsInitiated(init);
      RunStep(init, Last(ops));
      LineGrows(Run(init), OriginsOf(init), Last(ops), n);
      forall k | k in Line(OriginsOf(ops))
        ensures 0 <= k < |ops| && Initiated(ops, k)
      {
        if k in Line(OriginsOf(init)) {
          assert ops[..k] == init[..k] && ops[k] == init[k];
        } else {
          assert ops[..k] == init;
        }
      }
    }
  }

  lemma AscendingStart()
    ensures Ascending(Line(OriginsOf([])), 0)
  {
  }

  lemma LineStart()
    ensures Line(OriginsOf([])) == []
  {
  }

  lemma LineGrows(s: State, o: Origins, op: Op, at: nat)
    ensures forall k :: k in Line(OriginStep(s, o, op, at)) ==>
              k in Line(o) || (k == at && op.Initiate? && Succeeds(s, op))
  {
    hide Line, Admitted;
    var n := OriginStep(s, o, op, at);
    forall k | k in Line(n)
      ensures k in Line(o) || (k == at && op.Initiate? && Succeeds(s, op))
    {
      InLine(n, k);
      InLine(o, k);
    }
  }

  lemma InLine(o: Origins, k: int)
    ensures k in Line(o)
       <==> || k in o.loaded || o.package == Some(k) || o.downloadResponse == Some(k) || o.downloadParam == Some(k)
            || o.serverResponse == Some(k) || o.serverParam == Some(k)
  {
    hide Listed;
    var front1 := o.loaded + Listed(o.package);
    var front2 := front1 + Listed(o.downloadResponse);
    var front3 := front2 + Listed(o.downloadParam);
    InListed(o.loaded, o.package, k);
    InListed(front1, o.downloadResponse, k);
    InListed(front2, o.downloadParam, k);
    InListed(front3, o.serverResponse, k);
    InListed(front3 + Listed(o.serverResponse), o.serverParam, k);
  }

  lemma InListed(front: seq<int>, o: Option<int>, k: int)
    ensures k in front + Listed(o) <==> k in front || o == Some(k)
  {
    var line := front + Listed(o);
    assert forall i :: 0 <= i < |front| ==> line[i] == front[i];
    if o.Some? {
      assert line[|front|] == o.value;
    }
  }

  /**
   * Packages handed to the card go back to initiations that succeeded, in the order
   * they are handed over, and no two to the same one.
   */
  lemma EveryLoadHasItsOwnInitiation(ops: seq<Op>)
    ensures var l := OriginsOf(ops).loaded;
            && (forall i, j :: 0 <= i < j < |l| ==> l[i] < l[j])
            && (forall i :: 0 <= i < |l| ==> 0 <= l[i] < |ops| && Initiated(ops, l[i]))
  {
    hide Initiated, OriginsOf;
    InOrder(ops);
    LineIsInitiated(ops);
    var l, line := OriginsOf(ops).loaded, Line(OriginsOf(ops));
    assert l <= line;
    assert forall i :: 0 <= i < |l| ==> l[i] == line[i] && l[i] in line;
  }

  // ---- Which transaction a request names

  /** The k-th call brought a transaction id. Like the transaction id itself, it may do so and fail. */
  predicate Brings(ops: seq<Op>, k: int)
    requires 0 <= k < |ops|
  {
    ops[k].Initiate? && ops[k].tid.Some? && Admitted(Run(ops[..k]), ops[k])
  }

  /** The id a call may bring. */
  function IdOf(op: Op): Option<Text> {
    if op.Initiate? then op.tid else None
  }

  /** Something held that is or leads to an item of a request goes back to the k-th call. */
  predicate Under(o: Origins, k: int, cancels: bool) {
    || o.serverParam == Some(k) || o.serverResponse == Some(k) || o.downloadParam == Some(k)
    || o.downloadResponse == Some(k) || (cancels && (o.tidBin == Some(k) || o.cancelResponse == Some(k)))
  }

  predicate NewId(s: State, op: Op) {
    op.Initiate? && op.tid.Some? && Admitted(s, op)
  }

  lemma IdStep(s: State, o: Origins, op: Op, at: nat)
    ensures OriginStep(s, o, op, at).tidHttp
         == if NewId(s, op) then Some(at) else if op.Cleanup? then None else o.tidHttp
  {
  }

  /** What is under way was so before, or has just been initiated; after a cleanup there is nothing. */
  lemma UnderStep(s: State, o: Origins, op: Op, at: nat, k: int, cancels: bool)
    requires Under(OriginStep(s, o, op, at), k, cancels)
    ensures !op.Cleanup? && (Under(o, k, cancels) || (k == at && NewId(s, op)))
  {
    hide OriginDone, OriginFailed, Under, Admitted;
    if Succeeds(s, op) {
      UnderDone(o, op, at, k, cancels);
    } else if Admitted(s, op) {
      UnderFailed(o, op, at, k, cancels);
      assert !op.Cleanup?;
    } else {
      AlwaysCleansUp(s, op);
    }
  }

  lemma AlwaysCleansUp(s: State, op: Op)
    ensures op.Cleanup? ==> Admitted(s, op)
  {
  }

  lemma UnderDone(o: Origins, op: Op, at: nat, k: int, cancels: bool)
    requires Under(OriginDone(o, op, at), k, cancels)
    ensures !op.Cleanup? && (Under(o, k, cancels) || (k == at && op.Initiate?))
  {
  }

  lemma UnderFailed(o: Origins, op: Op, at: nat, k: int, cancels: bool)
    requires Under(OriginFailed(o, op, at), k, cancels)
    ensures Under(o, k, cancels)
  {
  }

  lemma BringsEarlier(ops: seq<Op>, k: int)
    requires ops != [] && 0 <= k < |ops| - 1
    ensures Brings(ops, k) <==> Brings(Init(ops), k)
  {
    assert ops[..k] == Init(ops)[..k] && ops[k] == Init(ops)[k];
  }

  lemma BringsLast(ops: seq<Op>)
    requires ops != []
    ensures Brings(ops, |ops| - 1) <==> NewId(Run(Init(ops)), Last(ops))
  {
  }

  /** The m-th call is the last so far to bring an id. */
  predicate LastToBring(ops: seq<Op>, m: int)
    requires 0 <= m < |ops|
  {
    Brings(ops, m) && forall n :: m < n < |ops| ==> !Brings(ops, n)
  }

  lemma StaysLastToBring(ops: seq<Op>, m: int)
    requires ops != [] && 0 <= m < |ops| - 1
    requires LastToBring(Init(ops), m) && !Brings(ops, |ops| - 1)
    ensures LastToBring(ops, m)
  {
    hide Brings;
    BringsEarlier(ops, m);
    forall n | m < n < |ops|
      ensures !Brings(ops, n)
    {
      if n < |ops| - 1 {
        BringsEarlier(ops, n);
      }
    }
  }

  lemma BecomesLastToBring(ops: seq<Op>)
    requires ops != [] && Brings(ops, |ops| - 1)
    ensures LastToBring(ops, |ops| - 1)
  {
    hide Brings;
  }

  /** The id held is the one that the last call to bring one brought. */
  lemma {:induction false} IdIsTheLatest(ops: seq<Op>)
    ensures var last := OriginsOf(ops).tidHttp;
            last.Some? ==>
              0 <= last.value < |ops| && LastToBring(ops, last.value) && IdOf(ops[last.value]) == Run(ops).tidHttp
  {
    hide Run, OriginsOf, Brings, LastToBring, NewId, OriginStep, Step, IdOf;
    if ops == [] {
      NoIdYet();
    } else {
      var init, n := Init(ops), |ops| - 1;
      IdIsTheLatest(init);
      RunStep(init, Last(ops));
      IdStep(Run(init), OriginsOf(init), Last(ops), n);
      IdHeld(Run(init), Last(ops));
      BringsLast(ops);
      if Brings(ops, n) {
        BecomesLastToBring(ops);
      } else if OriginsOf(ops).tidHttp.Some? {
        var last := OriginsOf(ops).tidHttp.value;
        assert OriginsOf(init).tidHttp == Some(last) && ops[last] == init[last];
        StaysLastToBring(ops, last);
      }
    }
  }

  lemma NoIdYet()
    ensures OriginsOf([]).tidHttp.None?
  {
  }

  lemma IdHeld(s: State, op: Op)
    ensures Step(s, op).tidHttp == if NewId(s, op) then IdOf(op) else if op.Cleanup? then None else s.tidHttp
  {
  }

  /** Everything under way goes back to a call that brought an id, none later than the one whose id is held. */
  lemma {:induction false} UnderIsBrought(ops: seq<Op>, k: int)
    requires Under(OriginsOf(ops), k, true)
    ensures 0 <= k < |ops| && Brings(ops, k)
    ensures OriginsOf(ops).tidHttp.Some? && k <= OriginsOf(ops).tidHttp.value
  {
    hide Run, OriginsOf, Brings, OriginStep, Step, Under, NewId;
    if ops == [] {
      NothingUnder(k);
    } else {
      var init, n := Init(ops), |ops| - 1;
      RunStep(init, Last(ops));
      UnderStep(Run(init), OriginsOf(init), Last(ops), n, k, true);
      IdStep(Run(init), OriginsOf(init), Last(ops), n);
      BringsLast(ops);
      if Under(OriginsOf(init), k, true) {
        UnderIsBrought(init, k);
        BringsEarlier(ops, k);
      }
    }
  }

  lemma NothingUnder(k: int)
    ensures !Under(OriginsOf([]), k, true)
  {
  }

  /** The initiation the item of a request goes back to. */
  function PostedFrom(o: Origins, op: Op): Option<int> {
    match op
    case AuthenticateClient(_, _) => o.serverResponse
    case DiscoverEvents(_) => o.serverResponse
    case FetchPackage(_) => o.downloadResponse
    case ReportCancel(_) => o.cancelResponse
    case _ => None
  }

  lemma PostedIsUnder(s: State, o: Origins, op: Op)
    requires Mirrored(s, o) && Posted(s, op) != []
    ensures PostedFrom(o, op).Some? && Under(o, PostedFrom(o, op).value, true)
    ensures !op.ReportCancel? ==> Under(o, PostedFrom(o, op).value, false)
    ensures forall p :: p in Posted(s, op) ==> p.tid == s.tidHttp
  {
  }

  /** Of the calls after the k-th that brought an id, the last brought another id than the k-th. */
  ghost predicate Replaced(ops: seq<Op>, k: int)
    requires 0 <= k < |ops|
  {
    exists m :: k < m < |ops| && LastToBring(ops, m) && IdOf(ops[m]) != IdOf(ops[k])
  }

  /**
   * When a request names the transaction its item belongs to: exactly when the id that
   * transaction was initiated with has not been replaced since. It holds of every run and every request.
   */
  lemma RequestNamesItsTransactionExactly(ops: seq<Op>, op: Op)
    requires Posted(Run(ops), op) != []
    ensures var from := PostedFrom(OriginsOf(ops), op);
            && from.Some? && 0 <= from.value < |ops| && Brings(ops, from.value)
            && forall p :: p in Posted(Run(ops), op) ==>
                 (p.tid == IdOf(ops[from.value]) <==> !Replaced(ops, from.value))
  {
    hide OriginsOf, Run, Brings, Mirrored, Under, Posted, PostedFrom;
    OriginsMirror(ops);
    PostedIsUnder(Run(ops), OriginsOf(ops), op);
    var from := PostedFrom(OriginsOf(ops), op).value;
    UnderIsBrought(ops, from);
    IdIsTheLatest(ops);
    var last := OriginsOf(ops).tidHttp.value;
    if Replaced(ops, from) {
      var m :| from < m < |ops| && LastToBring(ops, m) && IdOf(ops[m]) != IdOf(ops[from]);
      assert m == last;
    }
  }

  /** With a server that never gives the same id twice, it is exactly when no id was brought since. */
  lemma WithFreshIdsExactly(ops: seq<Op>, op: Op)
    requires Posted(Run(ops), op) != []
    requires forall j, k :: 0 <= j < k < |ops| && Brings(ops, j) && Brings(ops, k) ==> IdOf(ops[j]) != IdOf(ops[k])
    ensures var from := PostedFrom(OriginsOf(ops), op);
            && from.Some? && 0 <= from.value < |ops|
            && forall p :: p in Posted(Run(ops), op) ==>
                 (p.tid == IdOf(ops[from.value]) <==> forall k :: from.value < k < |ops| ==> !Brings(ops, k))
  {
    hide OriginsOf, Run, Brings, Posted, PostedFrom;
    RequestNamesItsTransactionExactly(ops, op);
    var from := PostedFrom(OriginsOf(ops), op).value;
    if k :| from < k < |ops| && Brings(ops, k) {
      var m := LastAfter(ops, k);
      assert Replaced(ops, from);
    }
  }

  /** If any call from the k-th on brought an id, one is the last. */
  lemma {:induction false} LastAfter(ops: seq<Op>, k: int) returns (m: int)
    requires 0 <= k < |ops| && Brings(ops, k)
    ensures k <= m < |ops| && LastToBring(ops, m)
    decreases |ops| - k
  {
    hide Brings;
    if n :| k < n < |ops| && Brings(ops, n) {
      m := LastAfter(ops, n);
    } else {
      m := k;
    }
  }

  // ---- A discipline that is enough

  /** All that is under way has the id held; with cancels, the binary id and the cancel response too. */
  ghost predicate OneTransaction(o: Origins, cancels: bool) {
    forall k :: Under(o, k, cancels) ==> o.tidHttp == Some(k)
  }

  /** Nothing is under way past the server's first answer; with cancels, nothing that can be cancelled either. */
  predicate Idle(s: State, cancels: bool) {
    && s.serverResponse.None? && s.downloadParam.None? && s.downloadResponse.None?
    && (cancels ==> s.tidBin.None? && s.cancelResponse.None?)
  }

  /**
   * A call keeps all that is under way with the id held, except exactly an initiation that
   * brings an id while the session is not idle.
   */
  lemma IdStaysExactly(s: State, o: Origins, op: Op, at: nat, cancels: bool)
    requires Mirrored(s, o) && OneTransaction(o, cancels)
    requires o.tidHttp.Some? ==> o.tidHttp.value < at
    ensures OneTransaction(OriginStep(s, o, op, at), cancels) <==> !(NewId(s, op) && !Idle(s, cancels))
  {
    hide OriginStep, Mirrored, Idle, Under, NewId;
    var n := OriginStep(s, o, op, at);
    IdStep(s, o, op, at);
    forall k | Under(n, k, cancels)
      ensures !op.Cleanup? && (Under(o, k, cancels) || (k == at && NewId(s, op)))
    {
      UnderStep(s, o, op, at, k, cancels);
    }
    if NewId(s, op) {
      if Idle(s, cancels) {
        IdleIsClear(s, o, op, cancels);
      } else {
        var k := StillUnder(s, o, op, at, cancels);
      }
    }
  }

  lemma IdleIsClear(s: State, o: Origins, op: Op, cancels: bool)
    requires Mirrored(s, o) && Idle(s, cancels) && NewId(s, op)
    ensures forall k :: !Under(o, k, cancels)
  {
  }

  /** An initiation leaves what is under way where it is. */
  lemma StillUnder(s: State, o: Origins, op: Op, at: nat, cancels: bool) returns (k: int)
    requires Mirrored(s, o) && !Idle(s, cancels) && NewId(s, op)
    ensures Under(o, k, cancels) && Under(OriginStep(s, o, op, at), k, cancels)
  {
    k := if s.serverResponse.Some? then o.serverResponse.value
         else if s.downloadParam.Some? then o.downloadParam.value
         else if s.downloadResponse.Some? then o.downloadResponse.value
         else if s.tidBin.Some? then o.tidBin.value
         else o.cancelResponse.value;
  }

  /** Every id is brought while the session is idle. */
  predicate Orderly(ops: seq<Op>, cancels: bool) {
    forall k :: 0 <= k < |ops| && Brings(ops, k) ==> Idle(Run(ops[..k]), cancels)
  }

  lemma OrderlyBefore(ops: seq<Op>, cancels: bool)
    requires ops != [] && Orderly(ops, cancels)
    ensures Orderly(Init(ops), cancels)
    ensures Brings(ops, |ops| - 1) ==> Idle(Run(Init(ops)), cancels)
  {
    hide Brings, Idle, Run;
    var init, n := Init(ops), |ops| - 1;
    assert ops[..n] == init;
    forall k | 0 <= k < n && Brings(init, k)
      ensures Idle(Run(init[..k]), cancels)
    {
      BringsEarlier(ops, k);
      assert init[..k] == ops[..k];
    }
  }

  lemma {:induction false} OrderlyRunsHaveOneTransaction(ops: seq<Op>, cancels: bool)
    requires Orderly(ops, cancels)
    ensures OneTransaction(OriginsOf(ops), cancels)
  {
    hide Run, OriginsOf, OneTransaction, OriginStep, Orderly, Brings, LastToBring, Idle, Step, NewId;
    if ops == [] {
      NothingHeld(cancels);
    } else {
      var init, n := Init(ops), |ops| - 1;
      OrderlyBefore(ops, cancels);
      OrderlyRunsHaveOneTransaction(init, cancels);
      OriginsMirror(init);
      IdIsTheLatest(init);
      BringsLast(ops);
      RunStep(init, Last(ops));
      IdStaysExactly(Run(init), OriginsOf(init), Last(ops), n, cancels);
    }
  }

  lemma NothingHeld(cancels: bool)
    ensures OneTransaction(OriginsOf([]), cancels)
  {
  }

  /**
   * A caller that brings ids only while the session is idle has every request name its transaction; for
   * reports of a cancel, idle includes that no binary id is left over.
   */
  lemma PostsNameTheirTransaction(ops: seq<Op>, op: Op, cancels: bool)
    requires Orderly(ops, cancels) && Posted(Run(ops), op) != [] && (op.ReportCancel? ==> cancels)
    ensures var from := PostedFrom(OriginsOf(ops), op);
            && from.Some? && 0 <= from.value < |ops| && Brings(ops, from.value)
            && forall p :: p in Posted(Run(ops), op) ==> p.tid == IdOf(ops[from.value])
  {
    hide OriginsOf, Run, Brings, Mirrored, Posted, PostedFrom, Orderly;
    OrderlyRunsHaveOneTransaction(ops, cancels);
    OriginsMirror(ops);
    IdIsTheLatest(ops);
    PostedIsUnder(Run(ops), OriginsOf(ops), op);
    assert Under(OriginsOf(ops), PostedFrom(OriginsOf(ops), op).value, cancels);
    hide Under;
  }

  /** Nothing in the code asks for order: here a response of transaction 1 goes out under transaction 2. */
  lemma PostsCanNameAnother(tid1: Text, tid2: Text, c: Text, r: Text)
    requires tid1 != tid2
    ensures var first := [ChallengeAndInfo(Some(c), Some(c)), Initiate(Some(tid1), Some(ServerParam([], Some(tid1)))),
                          Op.AuthenticateServer(Some(r))];
            var ops := first + [ChallengeAndInfo(Some(c), Some(c)), Initiate(Some(tid2), None)];
            && Posted(Run(ops), Op.AuthenticateClient(None, None)) == [Post(Some(tid2), r), Post(Some(tid2), r)]
            && PostedFrom(OriginsOf(ops), Op.AuthenticateClient(None, None)) == Some(1)
            && ops[1].tid == Some(tid1)
  {
    var op0 := ChallengeAndInfo(Some(c), Some(c));
    var op1, op2 := Initiate(Some(tid1), Some(ServerParam([], Some(tid1)))), Op.AuthenticateServer(Some(r));
    var op4 := Initiate(Some(tid2), None);
    hide Run, OriginsOf, Step, OriginStep;
    var r1, r2, r3, r4 := [op0], [op0] + [op1], [op0] + [op1] + [op2], [op0] + [op1] + [op2] + [op0];
    RunStep([], op0);
    assert [] + [op0] == r1;
    RunStep(r1, op1);
    RunStep(r2, op2);
    RunStep(r3, op0);
    RunStep(r4, op4);
    assert r4 + [op4] == [op0, op1, op2] + [op0, op4];
    SecondIdSteps(tid1, tid2, c, r);
  }

  lemma SecondIdSteps(tid1: Text, tid2: Text, c: Text, r: Text)
    ensures var s0, o0 := Run([]), OriginsOf([]);
            var op0 := ChallengeAndInfo(Some(c), Some(c));
            var op1, op2 := Initiate(Some(tid1), Some(ServerParam([], Some(tid1)))), Op.AuthenticateServer(Some(r));
            var op4 := Initiate(Some(tid2), None);
            var s1, o1 := Step(s0, op0), OriginStep(s0, o0, op0, 0);
            var s2, o2 := Step(s1, op1), OriginStep(s1, o1, op1, 1);
            var s3, o3 := Step(s2, op2), OriginStep(s2, o2, op2, 2);
            var s4, o4 := Step(s3, op0), OriginStep(s3, o3, op0, 3);
            var s5, o5 := Step(s4, op4), OriginStep(s4, o4, op4, 4);
            && Posted(s5, Op.AuthenticateClient(None, None)) == [Post(Some(tid2), r), Post(Some(tid2), r)]
            && PostedFrom(o5, Op.AuthenticateClient(None, None)) == Some(1)
  {
  }

  lemma RunStep(ops: seq<Op>, op: Op)
    ensures Run(ops + [op]) == Step(Run(ops), op)
    ensures OriginsOf(ops + [op]) == OriginStep(Run(ops), OriginsOf(ops), op, |ops|)
  {
    assert Init(ops + [op]) == ops;
  }
}
