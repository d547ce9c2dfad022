/**
 * The session handlers of pysim/osmo-smdpp.py over the file-backed session store:
 * a handler works on a copy of a session and only a write-back changes the store.
 * Certificates, signatures and decoders are functions of the server record.
 */
module Smdpp {
  import opened Bytes
  import Hex

  type Octets = seq<byte>
  type Cert = seq<byte>
  type KeyId = seq<byte>

  /** What a signed object says. */
  datatype Signed1 = Signed1(serverChallenge: Octets, common: bool, matchingId: Option<string>)
  datatype Signed2 = Signed2(transactionId: Octets, otpk: Octets)
  datatype CancelSigned = CancelSigned(transactionId: Octets, smdpOid: string)

  datatype Server = Server(
    hostname: string,
    ciCerts: seq<Cert>,
    dpAuthorityKeyId: KeyId,
    dpOid: string,
    subjectKeyId: Cert -> KeyId,
    authorityKeyId: Cert -> KeyId,
    dpChainsTo: Cert -> bool,
    chains: (Cert, Cert, Cert) -> bool,
    verifies: (Cert, Octets, Octets) -> bool,
    eid: Cert -> string,
    permittedEins: Cert -> seq<string>,
    signed1: Octets -> Signed1,
    signed2: Octets -> Signed2,
    cancelSigned: Octets -> CancelSigned,
    signedTransaction: Octets -> Octets)

  datatype Session = Session(
    transactionId: string, serverChallenge: Octets, ciCertId: KeyId,
    euiccCert: Option<Cert>, eumCert: Option<Cert>, eid: Option<string>, matchingId: Option<string>,
    iccid: Option<Octets>, signature2: Option<Octets>, otpk: Option<Octets>)

  type Store = map<string, Session>

  // ---- Requests, replies, and what a run leaves on record

  datatype Info1 = Info1(signing: seq<KeyId>, signingV3: Option<seq<KeyId>>, verification: seq<KeyId>)

  datatype Lookup = Refused | Unreadable | Found(iccid: Octets)

  datatype AuthenticateResponse =
    | Undecodable
    | ResponseError
    | Response(signed1: Octets, signature1: Octets, euiccCert: Cert, eumCert: Cert)

  datatype DownloadResponse = NoDownload | Download(signed2: Octets, signature: Octets)

  /** How binding a package ends: before the write-back, after it, or well. */
  datatype Binding = NoKeys | NotEncoded | Bound(package: Octets)

  datatype CancelResponse = BadCancel | CancelError | CancelOk(signed: Octets, signature: Octets)

  datatype Notification = BadNotification | Installation(signed: Octets, signature: Octets) | Other(genuine: bool)

  /** A request, with what the server draws or finds while it serves it. */
  datatype Request =
    | Initiate(smdpAddress: string, euiccChallenge: Octets, info1: Option<Info1>, uuid: string, random: Octets)
    | Authenticate(transactionId: string, response: AuthenticateResponse, lookup: Lookup, signature: Octets)
    | GetPackage(transactionId: string, download: DownloadResponse, binding: Binding)
    | Cancel(transactionId: string, cancel: CancelResponse)
    | Notify(notification: Notification)

  datatype Reply =
    | ApiError(subject: string, reason: string)
    | Exception
    | NoContent
    | Initiated(transactionId: string, serverChallenge: Octets)
    | Granted(transactionId: string, signature2: Octets)
    | Package(transactionId: string, package: Octets)
    | Cancelled(transactionId: string)

  datatype Event =
    | Opened(transactionId: string, serverChallenge: Octets, ciCertId: KeyId)
    | Authenticated(transactionId: string, euiccCert: Cert, eumCert: Cert, signed1: Octets, signature1: Octets,
                    signature2: Octets)
    | Issued(transactionId: string, signed2: Octets, signature: Octets)
    | Closed(transactionId: string, signed: Octets, signature: Octets)

  datatype Outcome = Outcome(store: Store, reply: Reply, event: Option<Event>)

  // ---- Hexadecimal text

  const UPPER := "0123456789ABCDEF"

  /** h2b: None when the text is not hexadecimal. */
  function HexToBytes(s: string): Option<Octets> {
    if |s| % 2 == 0 && Hex.IsHex(s) then Some(Hex.BytesOf(s)) else None
  }

  /** The form of uuid4().hex.upper(). */
  predicate IsUuid(s: string) {
    |s| == 32 && forall i :: 0 <= i < |s| ==> s[i] in UPPER
  }

  // ---- The handlers

  function BeforeColon(s: string): string {
    if s == "" || s[0] == ':' then "" else [s[0]] + BeforeColon(s[1..])
  }

  /** The first certificate with this subject key identifier. */
  function CiFor(srv: Server, certs: seq<Cert>, id: KeyId): Option<Cert> {
    if certs == [] then None
    else if srv.subjectKeyId(certs[0]) == id then Some(certs[0])
    else CiFor(srv, certs[1..], id)
  }

  /** The first offered identifier whose certificate also issued the server's own. */
  function ChooseCi(srv: Server, ids: seq<KeyId>): Option<Cert> {
    if ids == [] then None
    else
      var ci := CiFor(srv, srv.ciCerts, ids[0]);
      if ci.Some? && srv.subjectKeyId(ci.value) == srv.dpAuthorityKeyId then ci else ChooseCi(srv, ids[1..])
  }

  predicate ChainsForVerification(srv: Server, ids: seq<KeyId>) {
    exists i :: 0 <= i < |ids| && ChainsFor(srv, ids[i])
  }

  predicate ChainsFor(srv: Server, id: KeyId) {
    var ci := CiFor(srv, srv.ciCerts, id);
    ci.Some? && srv.dpChainsTo(ci.value)
  }

  function Offered(info1: Info1): seq<KeyId> {
    info1.signing + match info1.signingV3 case Some(v) => v case None => []
  }

  function UpperCase(s: string): string {
    seq(|s|, i requires 0 <= i < |s| => if 'a' <= s[i] <= 'z' then s[i] - 'a' + 'A' else s[i])
  }

  predicate EidInRange(eid: string, permitted: seq<string>) {
    |eid| == 32 && exists i :: 0 <= i < |permitted| && permitted[i] <= UpperCase(eid)
  }

  function OnInitiate(srv: Server, store: Store, r: Request): Outcome
    requires r.Initiate?
  {
    if BeforeColon(r.smdpAddress) != srv.hostname then Outcome(store, ApiError("8.8.1", "3.8"), None)
    else if |r.euiccChallenge| != 16 || r.info1.None? then Outcome(store, Exception, None)
    else
      var info1 := r.info1.value;
      var ci := ChooseCi(srv, Offered(info1));
      if info1.verification != [] && !ChainsForVerification(srv, info1.verification) then
        Outcome(store, ApiError("8.8.4", "3.7"), None)
      else if ci.None? then Outcome(store, ApiError("8.8.2", "3.1"), None)
      else if r.uuid in store then Outcome(store, Exception, None)
      else
        var id := srv.subjectKeyId(ci.value);
        Outcome(store[r.uuid := Session(r.uuid, r.random, id, None, None, None, None, None, None, None)],
                Initiated(r.uuid, r.random), Some(Opened(r.uuid, r.random, id)))
  }

  /** Whether a response passes every check against the session, or the reply that turns it down. */
  function Checked(srv: Server, ss: Session, a: AuthenticateResponse): Option<Reply>
    requires a.Response?
  {
    var ci := CiFor(srv, srv.ciCerts, ss.ciCertId);
    if srv.authorityKeyId(a.eumCert) != ss.ciCertId then Some(ApiError("8.11.1", "3.9"))
    else if ci.None? then Some(Exception)
    else if !srv.chains(ci.value, a.eumCert, a.euiccCert) then Some(ApiError("8.1.3", "6.1"))
    else if |a.signature1| != 64 then Some(Exception)
    else if !srv.verifies(a.euiccCert, a.signature1, a.signed1) then Some(ApiError("8.1", "6.1"))
    else if !EidInRange(srv.eid(a.euiccCert), srv.permittedEins(a.eumCert)) then Some(ApiError("8.1.4", "6.1"))
    else if srv.signed1(a.signed1).serverChallenge != ss.serverChallenge then Some(ApiError("8.1", "6.1"))
    else if !srv.signed1(a.signed1).common then Some(ApiError("1.3.1", "2.2"))
    else if srv.signed1(a.signed1).matchingId in [None, Some("")] then Some(ApiError("8.2.6", "3.8"))
    else None
  }

  function OnAuthenticate(srv: Server, store: Store, r: Request): Outcome
    requires r.Authenticate?
  {
    var a := r.response;
    if a.Undecodable? then Outcome(store, ApiError("8.1", "6.1"), None)
    else if a.ResponseError? then Outcome(store, Exception, None)
    else if r.transactionId !in store then Outcome(store, ApiError("8.10.1", "3.9"), None)
    else
      var ss := store[r.transactionId];
      var fault := Checked(srv, ss, a);
      if fault.Some? then Outcome(store, fault.value, None)
      else if r.lookup.Refused? then Outcome(store, ApiError("8.2.6", "3.8"), None)
      else if r.lookup.Unreadable? then Outcome(store, Exception, None)
      else
        var signature2 := [0x5F, 0x37, 0x40] + r.signature;
        var ss := ss.(euiccCert := Some(a.euiccCert), eumCert := Some(a.eumCert),
                      eid := Some(srv.eid(a.euiccCert)), matchingId := srv.signed1(a.signed1).matchingId,
                      iccid := Some(r.lookup.iccid), signature2 := Some(signature2));
        Outcome(store[r.transactionId := ss], Granted(r.transactionId, signature2),
                Some(Authenticated(r.transactionId, a.euiccCert, a.eumCert, a.signed1, a.signature1, signature2)))
  }

  function OnGetPackage(srv: Server, store: Store, r: Request): Outcome
    requires r.GetPackage?
  {
    if r.transactionId !in store then Outcome(store, ApiError("8.10.1", "3.9"), None)
    else
      var ss, d := store[r.transactionId], r.download;
      if d.NoDownload? || ss.euiccCert.None? || ss.signature2.None? || |d.signature| != 64 then
        Outcome(store, Exception, None)
      else if !srv.verifies(ss.euiccCert.value, d.signature, d.signed2 + ss.signature2.value) then
        Outcome(store, ApiError("8.1", "6.1"), None)
      else if HexToBytes(r.transactionId) != Some(srv.signed2(d.signed2).transactionId) then
        Outcome(store, ApiError("8.10.1", "3.9"), None)
      else if r.binding.NoKeys? then Outcome(store, Exception, None)
      else
        var store := store[r.transactionId := ss.(otpk := Some(srv.signed2(d.signed2).otpk))];
        if r.binding.NotEncoded? then Outcome(store, Exception, None)
        else Outcome(store, Package(r.transactionId, r.binding.package),
                     Some(Issued(r.transactionId, d.signed2, d.signature)))
  }

  function OnCancel(srv: Server, store: Store, r: Request): Outcome
    requires r.Cancel?
  {
    if r.transactionId !in store then Outcome(store, ApiError("8.10.1", "3.9"), None)
    else
      var ss, c := store[r.transactionId], r.cancel;
      if c.BadCancel? then Outcome(store, Exception, None)
      else if c.CancelError? then Outcome(store, NoContent, None)
      else if ss.euiccCert.None? then Outcome(store, ApiError("8.10.1", "3.9"), None)
      else if |c.signature| != 64 then Outcome(store, Exception, None)
      else if !srv.verifies(ss.euiccCert.value, c.signature, c.signed) then
        Outcome(store, ApiError("8.1", "6.1"), None)
      else if srv.cancelSigned(c.signed).smdpOid != srv.dpOid then Outcome(store, ApiError("8.8", "3.10"), None)
      else if HexToBytes(r.transactionId) != Some(srv.cancelSigned(c.signed).transactionId) then
        Outcome(store, ApiError("8.10.1", "3.9"), None)
      else
        Outcome(store - {r.transactionId}, Cancelled(r.transactionId),
                Some(Closed(r.transactionId, c.signed, c.signature)))
  }

  function OnNotify(srv: Server, store: Store, r: Request): Outcome
    requires r.Notify?
  {
    match r.notification
    case BadNotification => Outcome(store, Exception, None)
    case Other(genuine) => Outcome(store, if genuine then NoContent else Exception, None)
    case Installation(signed, signature) =>
      var transactionId := Hex.HexOf(srv.signedTransaction(signed));
      if transactionId !in store then Outcome(store, NoContent, None)
      else
        var ss := store[transactionId];
        if ss.euiccCert.None? || |signature| != 64 || !srv.verifies(ss.euiccCert.value, signature, signed) then
          Outcome(store, Exception, None)
        else
          Outcome(store - {transactionId}, NoContent, Some(Closed(transactionId, signed, signature)))
  }

  function Handle(srv: Server, store: Store, r: Request): Outcome {
    match r
    case Initiate(_, _, _, _, _) => OnInitiate(srv, store, r)
    case Authenticate(_, _, _, _) => OnAuthenticate(srv, store, r)
    case GetPackage(_, _, _) => OnGetPackage(srv, store, r)
    case Cancel(_, _) => OnCancel(srv, store, r)
    case Notify(_) => OnNotify(srv, store, r)
  }

  // ---- The code

  class SmDpPlus {
    const srv: Server
    var rss: Store
    /** The requests served so far, and what they leave on record. */
    ghost var served: seq<Request>
    ghost var log: seq<Event>

    /** The server is where serving its requests one by one leads. */
    ghost predicate Valid()
      reads this
    {
      Run(srv, served) == World(rss, log)
    }

    constructor (server: Server)
      ensures Valid() && srv == server && served == []
    {
      srv := server;
      rss, served, log := map[], [], [];
    }

    /** pysim/osmo-smdpp.py:435-445 */
    method CiGetCertForPkid(id: KeyId) returns (ci: Option<Cert>)
      ensures ci == CiFor(srv, srv.ciCerts, id)
    {
      var i := 0;
      while i < |srv.ciCerts|
        invariant i <= |srv.ciCerts| && CiFor(srv, srv.ciCerts[i..], id) == CiFor(srv, srv.ciCerts, id)
      {
        if srv.subjectKeyId(srv.ciCerts[i]) == id {
          return Some(srv.ciCerts[i]);
        }
        i := i + 1;
      }
      return None;
    }

    /** pysim/osmo-smdpp.py:447-459 */
    method ValidateCertificateChainForVerification(ids: seq<KeyId>) returns (ok: bool)
      ensures ok == ChainsForVerification(srv, ids)
    {
      hide CiFor;
      var i := 0;
      while i < |ids|
        invariant i <= |ids| && forall j :: 0 <= j < i ==> !ChainsFor(srv, ids[j])
      {
        var ci := CiGetCertForPkid(ids[i]);
        if ci.Some? {
          if srv.dpChainsTo(ci.value) {
            assert ChainsFor(srv, ids[i]);
            return true;
          }
        }
        i := i + 1;
      }
      return false;
    }

    /** pysim/osmo-smdpp.py:564-574 */
    method ChooseCertificate(ids: seq<KeyId>) returns (ci: Option<Cert>)
      ensures ci == ChooseCi(srv, ids)
    {
      hide CiFor;
      ci := None;
      var i := 0;
      while i < |ids|
        invariant i <= |ids| && ci.None? && ChooseCi(srv, ids[i..]) == ChooseCi(srv, ids)
      {
        ci := CiGetCertForPkid(ids[i]);
        if ci.Some? && srv.subjectKeyId(ci.value) == srv.dpAuthorityKeyId {
          return ci;
        }
        ci := None;
        i := i + 1;
      }
    }

    /** pysim/osmo-smdpp.py:345-367 */
    method ValidateEidRange(eid: string, permitted: seq<string>) returns (ok: bool)
      ensures ok == EidInRange(eid, permitted)
    {
      if |eid| != 32 {
        return false;
      }
      var normalized := UpperCase(eid);
      for i := 0 to |permitted|
        invariant forall j :: 0 <= j < i ==> !(permitted[j] <= normalized)
      {
        if permitted[i] <= normalized {
          return true;
        }
      }
      return false;
    }

    /** pysim/osmo-smdpp.py:533-614 */
    method InitiateAuthentication(r: Request) returns (reply: Reply)
      requires Valid() && r.Initiate?
      modifies this
      ensures Valid() && served == old(served) + [r]
      ensures var o := OnInitiate(srv, old(rss), r);
              rss == o.store && reply == o.reply
    {
      hide Run, ChooseCi, ChainsForVerification, CiFor;
      RunStep(srv, served, r);
      served := served + [r];
      if BeforeColon(r.smdpAddress) != srv.hostname {
        return ApiError("8.8.1", "3.8");
      }
      if |r.euiccChallenge| != 16 {
        return Exception;
      }
      if r.info1.None? {
        return Exception;
      }
      var info1 := r.info1.value;
      var ids := info1.signing;
      if info1.signingV3.Some? {
        ids := ids + info1.signingV3.value;
      } else {
        assert ids + [] == ids;
      }
      if info1.verification != [] {
        var supported := ValidateCertificateChainForVerification(info1.verification);
        if !supported {
          return ApiError("8.8.4", "3.7");
        }
      }
      var ci := ChooseCertificate(ids);
      if ci.None? {
        return ApiError("8.8.2", "3.1");
      }
      if r.uuid in rss {
        return Exception;
      }
      rss := rss[r.uuid := Session(r.uuid, r.random, srv.subjectKeyId(ci.value), None, None, None, None, None, None,
                                   None)];
      log := log + [Opened(r.uuid, r.random, srv.subjectKeyId(ci.value))];
      return Initiated(r.uuid, r.random);
    }

    /** pysim/osmo-smdpp.py:616-746 */
    method AuthenticateClient(r: Request) returns (reply: Reply)
      requires Valid() && r.Authenticate?
      modifies this
      ensures Valid() && served == old(served) + [r]
      ensures var o := OnAuthenticate(srv, old(rss), r);
              rss == o.store && reply == o.reply
    {
      hide Run, CiFor, EidInRange;
      RunStep(srv, served, r);
      served := served + [r];
      match r.response
      case Undecodable => return ApiError("8.1", "6.1");
      case ResponseError => return Exception;
      case Response(signed1, signature1, euiccCert, eumCert) =>
        if r.transactionId !in rss {
          return ApiError("8.10.1", "3.9");
        }
        var ss := rss[r.transactionId];
        ss := ss.(euiccCert := Some(euiccCert), eumCert := Some(eumCert));
        if srv.authorityKeyId(eumCert) != ss.ciCertId {
          return ApiError("8.11.1", "3.9");
        }
        var ci := CiGetCertForPkid(ss.ciCertId);
        if ci.None? {
          return Exception;
        }
        if !srv.chains(ci.value, eumCert, euiccCert) {
          return ApiError("8.1.3", "6.1");
        }
        if |signature1| != 64 {
          return Exception;
        }
        if !srv.verifies(euiccCert, signature1, signed1) {
          return ApiError("8.1", "6.1");
        }
        ss := ss.(eid := Some(srv.eid(euiccCert)));
        var inRange := ValidateEidRange(ss.eid.value, srv.permittedEins(eumCert));
        if !inRange {
          return ApiError("8.1.4", "6.1");
        }
        if srv.signed1(signed1).serverChallenge != ss.serverChallenge {
          return ApiError("8.1", "6.1");
        }
        if !srv.signed1(signed1).common {
          return ApiError("1.3.1", "2.2");
        }
        var matchingId := srv.signed1(signed1).matchingId;
        if matchingId == None || matchingId == Some("") {
          return ApiError("8.2.6", "3.8");
        }
        if r.lookup.Refused? {
          return ApiError("8.2.6", "3.8");
        }
        ss := ss.(matchingId := matchingId);
        if r.lookup.Unreadable? {
          return Exception;
        }
        ss := ss.(iccid := Some(r.lookup.iccid));
        ss := ss.(signature2 := Some([0x5F, 0x37, 0x40] + r.signature));
        rss := rss[r.transactionId := ss];
        log := log + [Authenticated(r.transactionId, euiccCert, eumCert, signed1, signature1, ss.signature2.value)];
        return Granted(r.transactionId, ss.signature2.value);
    }

    /** pysim/osmo-smdpp.py:748-833 */
    method GetBoundProfilePackage(r: Request) returns (reply: Reply)
      requires Valid() && r.GetPackage?
      modifies this
      ensures Valid() && served == old(served) + [r]
      ensures var o := OnGetPackage(srv, old(rss), r);
              rss == o.store && reply == o.reply
    {
      hide Run, HexToBytes;
      RunStep(srv, served, r);
      served := served + [r];
      if r.transactionId !in rss {
        return ApiError("8.10.1", "3.9");
      }
      var ss := rss[r.transactionId];
      if r.download.NoDownload? {
        return Exception;
      }
      var signed2, signature := r.download.signed2, r.download.signature;
      if ss.signature2.None? || ss.euiccCert.None? || |signature| != 64 {
        return Exception;
      }
      if !srv.verifies(ss.euiccCert.value, signature, signed2 + ss.signature2.value) {
        return ApiError("8.1", "6.1");
      }
      if HexToBytes(r.transactionId) != Some(srv.signed2(signed2).transactionId) {
        return ApiError("8.10.1", "3.9");
      }
      ss := ss.(otpk := Some(srv.signed2(signed2).otpk));
      if r.binding.NoKeys? {
        return Exception;
      }
      rss := rss[r.transactionId := ss];
      if r.binding.NotEncoded? {
        return Exception;
      }
      log := log + [Issued(r.transactionId, signed2, signature)];
      return Package(r.transactionId, r.binding.package);
    }

    /** pysim/osmo-smdpp.py:900-943 */
    method CancelSession(r: Request) returns (reply: Reply)
      requires Valid() && r.Cancel?
      modifies this
      ensures Valid() && served == old(served) + [r]
      ensures var o := OnCancel(srv, old(rss), r);
              rss == o.store && reply == o.reply
    {
      hide Run, HexToBytes;
      RunStep(srv, served, r);
      served := served + [r];
      if r.transactionId !in rss {
        return ApiError("8.10.1", "3.9");
      }
      var ss := rss[r.transactionId];
      match r.cancel
      case BadCancel => return Exception;
      case CancelError => return NoContent;
      case CancelOk(signed, signature) =>
        if ss.euiccCert.None? {
          return ApiError("8.10.1", "3.9");
        }
        if |signature| != 64 {
          return Exception;
        }
        if !srv.verifies(ss.euiccCert.value, signature, signed) {
          return ApiError("8.1", "6.1");
        }
        if srv.cancelSigned(signed).smdpOid != srv.dpOid {
          return ApiError("8.8", "3.10");
        }
        if HexToBytes(r.transactionId) != Some(srv.cancelSigned(signed).transactionId) {
          return ApiError("8.10.1", "3.9");
        }
        rss := rss - {r.transactionId};
        log := log + [Closed(r.transactionId, signed, signature)];
        return Cancelled(r.transactionId);
    }

    /** pysim/osmo-smdpp.py:835-893 */
    method HandleNotification(r: Request) returns (reply: Reply)
      requires Valid() && r.Notify?
      modifies this
      ensures Valid() && served == old(served) + [r]
      ensures var o := OnNotify(srv, old(rss), r);
              rss == o.store && reply == o.reply
    {
      hide Run, Hex.HexOf;
      RunStep(srv, served, r);
      served := served + [r];
      match r.notification
      case BadNotification => return Exception;
      case Other(genuine) => return if genuine then NoContent else Exception;
      case Installation(signed, signature) =>
        var transactionId := Hex.HexOf(srv.signedTransaction(signed));
        if transactionId !in rss {
          return NoContent;
        }
        var ss := rss[transactionId];
        if ss.euiccCert.None? || |signature| != 64 {
          return Exception;
        }
        if !srv.verifies(ss.euiccCert.value, signature, signed) {
          return Exception;
        }
        rss := rss - {transactionId};
        log := log + [Closed(transactionId, signed, signature)];
        return NoContent;
    }
  }

  // ---- Whole runs

  datatype World = World(store: Store, log: seq<Event>)

  function Run(srv: Server, rs: seq<Request>): World {
    if rs == [] then World(map[], [])
    else
      var w := Run(srv, Init(rs));
      var o := Handle(srv, w.store, Last(rs));
      World(o.store, Extended(w.log, o.event))
  }

  function Extended(log: seq<Event>, event: Option<Event>): seq<Event> {
    match event case Some(e) => log + [e] case None => log
  }

  lemma RunStep(srv: Server, rs: seq<Request>, r: Request)
    ensures var w := Run(srv, rs);
            var o := Handle(srv, w.store, r);
            Run(srv, rs + [r]) == World(o.store, Extended(w.log, o.event))
  {
    hide Handle;
    assert Init(rs + [r]) == rs;
  }

  /** What a log says of a transaction: its opening, and its latest authentication. */
  datatype Trail = Trail(serverChallenge: Octets, ciCertId: KeyId, auth: Option<Event>)

  function TrailOf(log: seq<Event>, tid: string): Option<Trail> {
    if log == [] then None
    else
      var e, before := Last(log), TrailOf(Init(log), tid);
      if e.transactionId != tid then before
      else match e
        case Opened(_, c, ci) => Some(Trail(c, ci, None))
        case Authenticated(_, _, _, _, _, _) => if before.Some? then Some(before.value.(auth := Some(e))) else None
        case Issued(_, _, _) => before
        case Closed(_, _, _) => None
  }

  /** The authentication answers the opening: certificates, signature, challenge and EID. */
  predicate Answers(srv: Server, serverChallenge: Octets, ciCertId: KeyId, e: Event)
    requires e.Authenticated?
  {
    && srv.authorityKeyId(e.eumCert) == ciCertId
    && CiFor(srv, srv.ciCerts, ciCertId).Some?
    && srv.chains(CiFor(srv, srv.ciCerts, ciCertId).value, e.eumCert, e.euiccCert)
    && srv.verifies(e.euiccCert, e.signature1, e.signed1)
    && srv.signed1(e.signed1).serverChallenge == serverChallenge
    && EidInRange(srv.eid(e.euiccCert), srv.permittedEins(e.eumCert))
  }

  /** A stored session is what the log says of it. */
  predicate Recorded(srv: Server, tid: string, ss: Session, t: Trail) {
    && ss.transactionId == tid && IsUuid(tid)
    && ss.serverChallenge == t.serverChallenge && ss.ciCertId == t.ciCertId
    && ss.ciCertId == srv.dpAuthorityKeyId
    && match t.auth
       case None => ss.euiccCert.None? && ss.signature2.None?
       case Some(e) =>
         && e.Authenticated? && e.transactionId == tid
         && ss.euiccCert == Some(e.euiccCert) && ss.eumCert == Some(e.eumCert)
         && ss.eid == Some(srv.eid(e.euiccCert)) && ss.signature2 == Some(e.signature2)
         && Answers(srv, t.serverChallenge, t.ciCertId, e)
  }

  ghost predicate AllRecorded(srv: Server, w: World) {
    forall tid :: (tid in w.store <==> TrailOf(w.log, tid).Some?)
                  && (tid in w.store ==> Recorded(srv, tid, w.store[tid], TrailOf(w.log, tid).value))
  }

  /** uuid4 and urandom give what they promise. */
  predicate Drawn(rs: seq<Request>) {
    forall i :: 0 <= i < |rs| && rs[i].Initiate? ==> IsUuid(rs[i].uuid) && |rs[i].random| == 16
  }

  lemma {:induction false} RunRecorded(srv: Server, rs: seq<Request>)
    requires Drawn(rs)
    ensures AllRecorded(srv, Run(srv, rs))
  {
    hide Handle, AllRecorded;
    if rs == [] {
      NothingRecorded(srv);
    } else {
      RunRecorded(srv, Init(rs));
      HandleRecorded(srv, Run(srv, Init(rs)), Last(rs));
    }
  }

  lemma NothingRecorded(srv: Server)
    ensures AllRecorded(srv, World(map[], []))
  {
  }

  /** Serving a request keeps the store and the log in step. */
  lemma HandleRecorded(srv: Server, w: World, r: Request)
    requires AllRecorded(srv, w) && (r.Initiate? ==> IsUuid(r.uuid))
    ensures var o := Handle(srv, w.store, r);
            AllRecorded(srv, World(o.store, Extended(w.log, o.event)))
  {
    hide Recorded, TrailOf, Checked, ChainsForVerification, ChooseCi, HexToBytes, Hex.HexOf;
    match r
    case Initiate(_, _, _, _, _) => InitiateRecorded(srv, w, r);
    case Authenticate(_, _, _, _) => AuthenticateRecorded(srv, w, r);
    case GetPackage(_, _, _) => GetPackageRecorded(srv, w, r);
    case Cancel(_, _) => ClosingRecorded(srv, w, r, r.transactionId);
    case Notify(Installation(signed, _)) =>
      ClosingRecorded(srv, w, r, Hex.HexOf(srv.signedTransaction(signed)));
    case Notify(_) =>
      assert Extended(w.log, None) == w.log;
  }

  lemma RecordedAt(srv: Server, w: World, tid: string)
    requires AllRecorded(srv, w)
    ensures tid in w.store <==> TrailOf(w.log, tid).Some?
    ensures tid in w.store ==> Recorded(srv, tid, w.store[tid], TrailOf(w.log, tid).value)
  {
    hide Recorded, TrailOf;
  }

  /** A request that touches one session only has that one to answer for. */
  lemma OneTouched(srv: Server, w: World, tid: string, store: Store, event: Option<Event>)
    requires AllRecorded(srv, w)
    requires forall t :: t != tid ==> (t in store <==> t in w.store)
    requires forall t :: t != tid && t in store ==> store[t] == w.store[t]
    requires event.Some? ==> event.value.transactionId == tid
    requires tid in store <==> TrailOf(Extended(w.log, event), tid).Some?
    requires tid in store ==> Recorded(srv, tid, store[tid], TrailOf(Extended(w.log, event), tid).value)
    ensures AllRecorded(srv, World(store, Extended(w.log, event)))
  {
    hide Recorded, TrailOf, Extended;
    var log := Extended(w.log, event);
    forall t
      ensures (t in store <==> TrailOf(log, t).Some?)
              && (t in store ==> Recorded(srv, t, store[t], TrailOf(log, t).value))
    {
      if t != tid {
        hide AllRecorded;
        TrailExtends(w.log, event, t);
        RecordedAt(srv, w, t);
      }
    }
  }

  lemma TrailExtends(log: seq<Event>, event: Option<Event>, tid: string)
    ensures event.None? || event.value.transactionId != tid ==>
              TrailOf(Extended(log, event), tid) == TrailOf(log, tid)
    ensures event.Some? && event.value.transactionId == tid ==>
              TrailOf(Extended(log, event), tid) == match event.value
                case Opened(_, c, ci) => Some(Trail(c, ci, None))
                case Authenticated(_, _, _, _, _, _) =>
                  var before := TrailOf(log, tid);
                  if before.Some? then Some(before.value.(auth := event)) else None
                case Issued(_, _, _) => TrailOf(log, tid)
                case Closed(_, _, _) => None
  {
    if event.Some? {
      assert Init(log + [event.value]) == log;
    }
  }

  lemma InitiateRecorded(srv: Server, w: World, r: Request)
    requires AllRecorded(srv, w) && r.Initiate? && IsUuid(r.uuid)
    ensures var o := OnInitiate(srv, w.store, r);
            AllRecorded(srv, World(o.store, Extended(w.log, o.event)))
  {
    hide AllRecorded, TrailOf, ChainsForVerification, IsUuid, CiFor, ChooseCi, BeforeColon;
    var o := OnInitiate(srv, w.store, r);
    if o.event.None? {
      assert Extended(w.log, o.event) == w.log;
    } else {
      ChosenIssuedOurs(srv, Offered(r.info1.value));
      TrailExtends(w.log, o.event, r.uuid);
      OneTouched(srv, w, r.uuid, o.store, o.event);
    }
  }

  /** A certificate is chosen exactly when the eUICC offers the issuer of the server's own certificate. */
  lemma {:induction false} ChosenIssuedOurs(srv: Server, ids: seq<KeyId>)
    ensures var ci := ChooseCi(srv, ids);
            && (ci.Some? <==> srv.dpAuthorityKeyId in ids && CiFor(srv, srv.ciCerts, srv.dpAuthorityKeyId).Some?)
            && (ci.Some? ==> ci == CiFor(srv, srv.ciCerts, srv.dpAuthorityKeyId)
                             && srv.subjectKeyId(ci.value) == srv.dpAuthorityKeyId)
  {
    hide CiFor;
    if ids != [] {
      ChosenIssuedOurs(srv, ids[1..]);
      CiHasItsId(srv, srv.ciCerts, ids[0]);
      CiHasItsId(srv, srv.ciCerts, srv.dpAuthorityKeyId);
    }
  }

  lemma {:induction false} CiHasItsId(srv: Server, certs: seq<Cert>, id: KeyId)
    ensures var ci := CiFor(srv, certs, id);
            && (ci.Some? ==> srv.subjectKeyId(ci.value) == id && ci.value in certs)
            && (ci.None? ==> forall i :: 0 <= i < |certs| ==> srv.subjectKeyId(certs[i]) != id)
  {
    if certs != [] {
      CiHasItsId(srv, certs[1..], id);
    }
  }

  lemma AuthenticateRecorded(srv: Server, w: World, r: Request)
    requires AllRecorded(srv, w) && r.Authenticate?
    ensures var o := OnAuthenticate(srv, w.store, r);
            AllRecorded(srv, World(o.store, Extended(w.log, o.event)))
  {
    hide AllRecorded, TrailOf, IsUuid, CiFor, EidInRange;
    var o := OnAuthenticate(srv, w.store, r);
    if o.event.None? {
      assert Extended(w.log, o.event) == w.log;
    } else {
      RecordedAt(srv, w, r.transactionId);
      TrailExtends(w.log, o.event, r.transactionId);
      OneTouched(srv, w, r.transactionId, o.store, o.event);
    }
  }

  lemma GetPackageRecorded(srv: Server, w: World, r: Request)
    requires AllRecorded(srv, w) && r.GetPackage?
    ensures var o := OnGetPackage(srv, w.store, r);
            AllRecorded(srv, World(o.store, Extended(w.log, o.event)))
  {
    hide AllRecorded, TrailOf, IsUuid, CiFor, EidInRange, Answers, HexToBytes;
    var o := OnGetPackage(srv, w.store, r);
    RecordedAt(srv, w, r.transactionId);
    TrailExtends(w.log, o.event, r.transactionId);
    OneTouched(srv, w, r.transactionId, o.store, o.event);
  }

  lemma ClosingRecorded(srv: Server, w: World, r: Request, tid: string)
    requires AllRecorded(srv, w)
    requires || (r.Cancel? && tid == r.transactionId)
             || (r.Notify? && r.notification.Installation?
                 && tid == Hex.HexOf(srv.signedTransaction(r.notification.signed)))
    ensures var o := Handle(srv, w.store, r);
            AllRecorded(srv, World(o.store, Extended(w.log, o.event)))
  {
    hide AllRecorded, TrailOf, Recorded, HexToBytes, Hex.HexOf;
    var o := Handle(srv, w.store, r);
    RecordedAt(srv, w, tid);
    TrailExtends(w.log, o.event, tid);
    OneTouched(srv, w, tid, o.store, o.event);
  }

  // ---- Agreement

  /** In a session that was opened at k, only its authentications and packages follow. */
  predicate OpenSince(log: seq<Event>, k: int, tid: string)
    requires 0 <= k < |log|
  {
    && log[k].Opened? && log[k].transactionId == tid
    && forall m :: k < m < |log| && log[m].transactionId == tid ==> log[m].Authenticated? || log[m].Issued?
  }

  /** The last authentication of a transaction is at j. */
  predicate LastAuthenticated(log: seq<Event>, j: int, tid: string)
    requires 0 <= j < |log|
  {
    && log[j].Authenticated? && log[j].transactionId == tid
    && forall m :: j < m < |log| && log[m].transactionId == tid ==> !log[m].Authenticated?
  }

  /** The trail is read off two events of the log, in this order. */
  ghost predicate Happened(log: seq<Event>, tid: string, t: Trail) {
    exists k :: 0 <= k < |log| && OpenSince(log, k, tid) && log[k] == Opened(tid, t.serverChallenge, t.ciCertId)
                && (t.auth.Some? ==> AuthenticatedAfter(log, k, tid, t.auth.value))
  }

  ghost predicate AuthenticatedAfter(log: seq<Event>, k: int, tid: string, e: Event) {
    exists j :: 0 <= k < j < |log| && LastAuthenticated(log, j, tid) && log[j] == e
  }

  lemma {:induction false} TrailHappened(log: seq<Event>, tid: string)
    ensures var t := TrailOf(log, tid);
            t.Some? ==> Happened(log, tid, t.value)
  {
    if log != [] && TrailOf(log, tid).Some? {
      var t, before, e, n := TrailOf(log, tid).value, Init(log), Last(log), |log| - 1;
      TrailHappened(before, tid);
      if e.transactionId == tid && e.Opened? {
        assert OpenSince(log, n, tid);
      } else {
        var b := TrailOf(before, tid).value;
        var k :| 0 <= k < |before| && OpenSince(before, k, tid)
                 && before[k] == Opened(tid, b.serverChallenge, b.ciCertId)
                 && (b.auth.Some? ==> AuthenticatedAfter(before, k, tid, b.auth.value));
        assert OpenSince(log, k, tid);
        if e.transactionId == tid && e.Authenticated? {
          assert LastAuthenticated(log, n, tid);
        } else if t.auth.Some? {
          var j :| 0 <= k < j < |before| && LastAuthenticated(before, j, tid) && before[j] == b.auth.value;
          assert LastAuthenticated(log, j, tid);
        }
      }
    }
  }

  /** What went out or was closed is signed under the certificate of authentication a, for its own transaction. */
  predicate SignedUnder(srv: Server, a: Event, e: Event)
    requires a.Authenticated?
  {
    match e
    case Issued(tid, signed2, signature) =>
      && srv.verifies(a.euiccCert, signature, signed2 + a.signature2)
      && HexToBytes(tid) == Some(srv.signed2(signed2).transactionId)
    case Closed(tid, signed, signature) =>
      && srv.verifies(a.euiccCert, signature, signed)
      && (HexToBytes(tid) == Some(srv.cancelSigned(signed).transactionId)
          || Hex.HexOf(srv.signedTransaction(signed)) == tid)
    case _ => false
  }

  /** What is on record when a package goes out, or a session is closed, entitles the eUICC to it. */
  predicate Entitled(srv: Server, before: seq<Event>, e: Event) {
    var t := TrailOf(before, e.transactionId);
    && t.Some? && t.value.auth.Some? && t.value.auth.value.Authenticated?
    && Answers(srv, t.value.serverChallenge, t.value.ciCertId, t.value.auth.value)
    && SignedUnder(srv, t.value.auth.value, e)
  }

  lemma ActIsEntitled(srv: Server, w: World, r: Request)
    requires AllRecorded(srv, w)
    ensures var e := Handle(srv, w.store, r).event;
            e.Some? && (e.value.Issued? || e.value.Closed?) ==> Entitled(srv, w.log, e.value)
  {
    hide AllRecorded, TrailOf, Answers, HexToBytes, Hex.HexOf, IsUuid;
    var e := Handle(srv, w.store, r).event;
    if e.Some? {
      RecordedAt(srv, w, e.value.transactionId);
    }
  }

  /**
   * The transaction was opened at k with a challenge and a CI, and last authenticated at j by a certificate
   * that chains to that CI, signed that challenge and names a permitted EID; the same certificate signed the
   * request for the package, over what the server sent it at j, or signed the closing.
   */
  predicate AuthorisedBy(srv: Server, before: seq<Event>, e: Event, k: int, j: int) {
    var tid := e.transactionId;
    && 0 <= k < j < |before|
    && OpenSince(before, k, tid) && LastAuthenticated(before, j, tid)
    && Answers(srv, before[k].serverChallenge, before[k].ciCertId, before[j])
    && SignedUnder(srv, before[j], e)
  }

  ghost predicate Authorised(srv: Server, before: seq<Event>, e: Event) {
    exists k, j :: AuthorisedBy(srv, before, e, k, j)
  }

  lemma EntitledIsAuthorised(srv: Server, before: seq<Event>, e: Event)
    requires Entitled(srv, before, e)
    ensures Authorised(srv, before, e)
  {
    hide TrailOf, Answers, HexToBytes, OpenSince, LastAuthenticated, SignedUnder;
    var tid := e.transactionId;
    TrailHappened(before, tid);
    var t := TrailOf(before, tid).value;
    var k :| 0 <= k < |before| && OpenSince(before, k, tid)
             && before[k] == Opened(tid, t.serverChallenge, t.ciCertId)
             && (t.auth.Some? ==> AuthenticatedAfter(before, k, tid, t.auth.value));
    var j :| 0 <= k < j < |before| && LastAuthenticated(before, j, tid) && before[j] == t.auth.value;
    assert AuthorisedBy(srv, before, e, k, j);
  }

  /** Every package issued and every session closed in a run was authorised by what came before. */
  lemma {:induction false} EveryPackageIsAuthorised(srv: Server, rs: seq<Request>, i: nat)
    requires Drawn(rs) && i < |Run(srv, rs).log|
    ensures var log := Run(srv, rs).log;
            log[i].Issued? || log[i].Closed? ==> Authorised(srv, log[..i], log[i])
  {
    hide Handle, Authorised, Entitled, AllRecorded;
    var w, log := Run(srv, Init(rs)), Run(srv, rs).log;
    if i < |w.log| {
      EveryPackageIsAuthorised(srv, Init(rs), i);
      assert log[..i] == w.log[..i];
    } else {
      RunRecorded(srv, Init(rs));
      ActIsEntitled(srv, w, Last(rs));
      assert log[..i] == w.log;
      if log[i].Issued? || log[i].Closed? {
        EntitledIsAuthorised(srv, w.log, log[i]);
      }
    }
  }

  /** What a reply says is what goes on record, and a session is opened or ended only on record. */
  lemma RepliesAreRecorded(srv: Server, store: Store, r: Request)
    ensures var o := Handle(srv, store, r);
            var e := o.event;
            && (o.reply.Initiated? <==> e.Some? && e.value.Opened?)
            && (o.reply.Granted? <==> e.Some? && e.value.Authenticated?)
            && (o.reply.Package? <==> e.Some? && e.value.Issued?)
            && (e.Some? && !o.reply.NoContent? ==> e.value.transactionId == o.reply.transactionId)
            && (o.reply.Initiated? ==> e.value.serverChallenge == o.reply.serverChallenge)
            && (o.reply.Granted? ==> e.value.signature2 == o.reply.signature2)
    ensures var o := Handle(srv, store, r);
            && (forall tid :: tid !in store && tid in o.store ==>
                  o.event.Some? && o.event.value.Opened? && o.event.value.transactionId == tid)
            && (forall tid :: tid in store && tid !in o.store ==>
                  o.event.Some? && o.event.value.Closed? && o.event.value.transactionId == tid)
  {
    hide HexToBytes, Hex.HexOf, Checked, BeforeColon, ChainsForVerification, ChooseCi;
    if r.Authenticate? && r.response.Response? && r.transactionId in store {
      FaultIsRefusal(srv, store[r.transactionId], r.response);
    }
  }

  lemma FaultIsRefusal(srv: Server, ss: Session, a: AuthenticateResponse)
    requires a.Response?
    ensures var fault := Checked(srv, ss, a);
            fault.Some? ==> fault.value.ApiError? || fault.value.Exception?
  {
    hide CiFor, EidInRange;
  }

  /** A reply carries a package, and a session ends, only when the requests before it authorise that. */
  lemma RepliesAreAuthorised(srv: Server, rs: seq<Request>, r: Request)
    requires Drawn(rs)
    ensures var w := Run(srv, rs);
            var o := Handle(srv, w.store, r);
            (o.reply.Package? || exists tid :: tid in w.store && tid !in o.store) ==>
              o.event.Some? && Authorised(srv, w.log, o.event.value)
  {
    hide Handle, Run, Authorised, Entitled, AllRecorded;
    var w := Run(srv, rs);
    RepliesAreRecorded(srv, w.store, r);
    RunRecorded(srv, rs);
    ActIsEntitled(srv, w, r);
    var o := Handle(srv, w.store, r);
    if o.event.Some? && (o.event.value.Issued? || o.event.value.Closed?) {
      EntitledIsAuthorised(srv, w.log, o.event.value);
    }
  }

  // ---- When a request is granted

  /** What stands before the first colon. */
  lemma {:induction false} BeforeColonExactly(s: string)
    ensures var h := BeforeColon(s);
            h <= s && ':' !in h && (|h| < |s| ==> s[|h|] == ':')
  {
    if s != "" && s[0] != ':' {
      BeforeColonExactly(s[1..]);
    }
  }

  /** The request names this server, is well formed, and offers what the server's certificate needs. */
  predicate MayOpen(srv: Server, r: Request)
    requires r.Initiate?
  {
    && BeforeColon(r.smdpAddress) == srv.hostname && |r.euiccChallenge| == 16 && r.info1.Some?
    && var info1 := r.info1.value;
       && (srv.dpAuthorityKeyId in info1.signing
           || (info1.signingV3.Some? && srv.dpAuthorityKeyId in info1.signingV3.value))
       && CiFor(srv, srv.ciCerts, srv.dpAuthorityKeyId).Some?
       && (info1.verification == []
           || exists i :: 0 <= i < |info1.verification| && ChainsFor(srv, info1.verification[i]))
  }

  /** The response answers the challenge under a certificate that chains to the CI, and says all it has to say. */
  predicate Proves(srv: Server, serverChallenge: Octets, ciCertId: KeyId, a: AuthenticateResponse) {
    && a.Response?
    && srv.authorityKeyId(a.eumCert) == ciCertId
    && CiFor(srv, srv.ciCerts, ciCertId).Some?
    && srv.chains(CiFor(srv, srv.ciCerts, ciCertId).value, a.eumCert, a.euiccCert)
    && |a.signature1| == 64 && srv.verifies(a.euiccCert, a.signature1, a.signed1)
    && EidInRange(srv.eid(a.euiccCert), srv.permittedEins(a.eumCert))
    && var said := srv.signed1(a.signed1);
       && said.serverChallenge == serverChallenge && said.common
       && said.matchingId.Some? && said.matchingId.value != ""
  }

  /** An EID of 32 characters is in range exactly when it begins, but for case, with a permitted number. */
  lemma EidExactly(eid: string, permitted: seq<string>)
    ensures EidInRange(eid, permitted) <==>
              && |eid| == 32
              && exists i :: 0 <= i < |permitted| && |permitted[i]| <= 32
                             && forall j :: 0 <= j < |permitted[i]| ==>
                                  permitted[i][j] == if 'a' <= eid[j] <= 'z' then eid[j] - 'a' + 'A' else eid[j]
  {
    if |eid| == 32 {
      forall i | 0 <= i < |permitted|
        ensures permitted[i] <= UpperCase(eid) <==>
                  && |permitted[i]| <= 32
                  && forall j :: 0 <= j < |permitted[i]| ==>
                       permitted[i][j] == if 'a' <= eid[j] <= 'z' then eid[j] - 'a' + 'A' else eid[j]
      {
        assert permitted[i] <= UpperCase(eid) <==>
            |permitted[i]| <= 32 && forall j :: 0 <= j < |permitted[i]| ==> permitted[i][j] == UpperCase(eid)[j];
      }
    }
  }

  /** The octets are signed under the certificate of authentication a. */
  predicate SignedBy(srv: Server, a: Event, signature: Octets, signed: Octets)
    requires a.Authenticated?
  {
    |signature| == 64 && srv.verifies(a.euiccCert, signature, signed)
  }

  /** The authentication that stands for a transaction. */
  function AuthOf(log: seq<Event>, tid: string): (a: Option<Event>)
    ensures a.Some? ==> a.value.Authenticated?
  {
    var t := TrailOf(log, tid);
    if t.Some? && t.value.auth.Some? && t.value.auth.value.Authenticated? then t.value.auth else None
  }

  /** After any run, a session is opened exactly for a request that may open one, under an identifier not in use. */
  lemma InitiatedExactly(srv: Server, rs: seq<Request>, r: Request, tid: string, challenge: Octets)
    requires Drawn(rs) && r.Initiate?
    ensures Handle(srv, Run(srv, rs).store, r).reply == Initiated(tid, challenge) <==>
              && MayOpen(srv, r) && tid == r.uuid && challenge == r.random
              && TrailOf(Run(srv, rs).log, r.uuid).None?
  {
    hide Run, TrailOf, BeforeColon, CiFor, ChooseCi;
    RunRecorded(srv, rs);
    RecordedAt(srv, Run(srv, rs), r.uuid);
    hide AllRecorded, Recorded;
    if r.info1.Some? {
      ChosenIssuedOurs(srv, Offered(r.info1.value));
      var offered := Offered(r.info1.value);
    }
  }

  /** An eUICC is let in exactly when its session is open, its response proves it, and a profile is found for it. */
  lemma GrantedExactly(srv: Server, rs: seq<Request>, r: Request, tid: string, signature2: Octets)
    requires Drawn(rs) && r.Authenticate?
    ensures var t := TrailOf(Run(srv, rs).log, r.transactionId);
            Handle(srv, Run(srv, rs).store, r).reply == Granted(tid, signature2) <==>
              && t.Some? && Proves(srv, t.value.serverChallenge, t.value.ciCertId, r.response)
              && r.lookup.Found? && tid == r.transactionId && signature2 == [0x5F, 0x37, 0x40] + r.signature
    ensures var o := Handle(srv, Run(srv, rs).store, r);
            o.reply.Granted? ==>
              && r.transactionId in o.store && o.store[r.transactionId].iccid == Some(r.lookup.iccid)
              && o.store[r.transactionId].matchingId == srv.signed1(r.response.signed1).matchingId
  {
    hide Run, TrailOf, CiFor, EidInRange;
    RunRecorded(srv, rs);
    RecordedAt(srv, Run(srv, rs), r.transactionId);
    hide AllRecorded, IsUuid, Answers, Checked, Proves;
    if r.response.Response? && r.transactionId in Run(srv, rs).store {
      var ss := Run(srv, rs).store[r.transactionId];
      CheckedExactly(srv, ss, r.response);
      FaultIsRefusal(srv, ss, r.response);
    } else {
      OnlyResponsesProve(srv, r.response);
    }
  }

  lemma CheckedExactly(srv: Server, ss: Session, a: AuthenticateResponse)
    requires a.Response?
    ensures Checked(srv, ss, a).None? <==> Proves(srv, ss.serverChallenge, ss.ciCertId, a)
  {
    hide CiFor, EidInRange;
    NoMatchingId(srv.signed1(a.signed1).matchingId);
  }

  lemma NoMatchingId(m: Option<string>)
    ensures m in [None, Some("")] <==> m.None? || m.value == ""
  {
    assert m in [None, Some("")] <==> m == None || m == Some("");
  }

  lemma OnlyResponsesProve(srv: Server, a: AuthenticateResponse)
    ensures !a.Response? ==> forall c, ci :: !Proves(srv, c, ci, a)
  {
  }

  /**
   * A package is handed out exactly when its session is open and authenticated, the request is signed under
   * that authentication over what was sent then, it names the transaction, and the package could be bound.
   */
  lemma PackageExactly(srv: Server, rs: seq<Request>, r: Request, tid: string, package: Octets)
    requires Drawn(rs) && r.GetPackage?
    ensures var a := AuthOf(Run(srv, rs).log, r.transactionId);
            var d := r.download;
            Handle(srv, Run(srv, rs).store, r).reply == Package(tid, package) <==>
              && a.Some? && d.Download? && SignedBy(srv, a.value, d.signature, d.signed2 + a.value.signature2)
              && HexToBytes(r.transactionId) == Some(srv.signed2(d.signed2).transactionId)
              && r.binding == Bound(package) && tid == r.transactionId
    ensures var store := Run(srv, rs).store;
            var o := Handle(srv, store, r);
            o.reply.Package? ==>
              && r.transactionId in store
              && o.store == store[r.transactionId :=
                                    store[r.transactionId].(otpk := Some(srv.signed2(r.download.signed2).otpk))]
  {
    hide Run, TrailOf, HexToBytes;
    RunRecorded(srv, rs);
    RecordedAt(srv, Run(srv, rs), r.transactionId);
    hide AllRecorded, IsUuid, Answers;
  }

  /** A session is cancelled exactly when it is authenticated and the cancellation is signed for it and this server. */
  lemma CancelledExactly(srv: Server, rs: seq<Request>, r: Request, tid: string)
    requires Drawn(rs) && r.Cancel?
    ensures var a := AuthOf(Run(srv, rs).log, r.transactionId);
            var c := r.cancel;
            Handle(srv, Run(srv, rs).store, r).reply == Cancelled(tid) <==>
              && a.Some? && c.CancelOk? && SignedBy(srv, a.value, c.signature, c.signed)
              && srv.cancelSigned(c.signed).smdpOid == srv.dpOid
              && HexToBytes(r.transactionId) == Some(srv.cancelSigned(c.signed).transactionId)
              && tid == r.transactionId
  {
    hide Run, TrailOf, HexToBytes;
    RunRecorded(srv, rs);
    RecordedAt(srv, Run(srv, rs), r.transactionId);
    hide AllRecorded, IsUuid, Answers;
  }

  /**
   * What a refusal says: an unknown transaction, a forged signature over an open one, and a request for
   * another server have subject and reason codes of their own.
   */
  lemma RefusalsSay(srv: Server, rs: seq<Request>, r: Request)
    requires Drawn(rs)
    ensures var log, reply := Run(srv, rs).log, Handle(srv, Run(srv, rs).store, r).reply;
            match r
            case Initiate(address, _, _, _, _) =>
              BeforeColon(address) != srv.hostname ==> reply == ApiError("8.8.1", "3.8")
            case Authenticate(tid, a, _, _) =>
              (a.Response? && TrailOf(log, tid).None? ==> reply == ApiError("8.10.1", "3.9"))
            case GetPackage(tid, d, _) =>
              && (TrailOf(log, tid).None? ==> reply == ApiError("8.10.1", "3.9"))
              && (AuthOf(log, tid).Some? && d.Download? && |d.signature| == 64
                  && !SignedBy(srv, AuthOf(log, tid).value, d.signature, d.signed2 + AuthOf(log, tid).value.signature2)
                  ==> reply == ApiError("8.1", "6.1"))
            case Cancel(tid, c) =>
              && (TrailOf(log, tid).None? ==> reply == ApiError("8.10.1", "3.9"))
              && (AuthOf(log, tid).Some? && c.CancelOk? && |c.signature| == 64
                  && !SignedBy(srv, AuthOf(log, tid).value, c.signature, c.signed)
                  ==> reply == ApiError("8.1", "6.1"))
            case Notify(_) => reply == NoContent || reply == Exception
  {
    hide Run, TrailOf, BeforeColon, HexToBytes, Hex.HexOf, Checked, ChooseCi, ChainsForVerification;
    RunRecorded(srv, rs);
    if !r.Initiate? && !r.Notify? {
      RecordedAt(srv, Run(srv, rs), r.transactionId);
    }
    hide AllRecorded, IsUuid, Answers;
  }

  // ---- A download from its first request to its package

  /** The request is about this transaction. */
  predicate Names(srv: Server, r: Request, tid: string) {
    match r
    case Initiate(_, _, _, uuid, _) => uuid == tid
    case Authenticate(id, _, _, _) => id == tid
    case GetPackage(id, _, _) => id == tid
    case Cancel(id, _) => id == tid
    case Notify(Installation(signed, _)) => Hex.HexOf(srv.signedTransaction(signed)) == tid
    case Notify(_) => false
  }

  predicate NoneNames(srv: Server, rs: seq<Request>, tid: string) {
    forall i :: 0 <= i < |rs| ==> !Names(srv, rs[i], tid)
  }

  predicate SameSession(a: Store, b: Store, tid: string) {
    (tid in a <==> tid in b) && (tid in a ==> a[tid] == b[tid])
  }

  lemma OthersKeep(srv: Server, store: Store, r: Request, tid: string)
    requires !Names(srv, r, tid)
    ensures SameSession(store, Handle(srv, store, r).store, tid)
  {
    hide HexToBytes, Hex.HexOf, Checked, BeforeColon, ChainsForVerification, ChooseCi;
  }

  /** Requests about other transactions leave a session alone. */
  lemma {:induction false} OthersRun(srv: Server, rs: seq<Request>, others: seq<Request>, tid: string)
    requires NoneNames(srv, others, tid)
    ensures SameSession(Run(srv, rs).store, Run(srv, rs + others).store, tid)
    decreases |others|
  {
    hide Handle, Run, Names;
    if others == [] {
      assert rs + others == rs;
    } else {
      var init, last := Init(others), Last(others);
      assert others[|others| - 1] == last;
      OthersRun(srv, rs, init, tid);
      assert rs + others == (rs + init) + [last];
      RunStep(srv, rs + init, last);
      OthersKeep(srv, Run(srv, rs + init).store, last, tid);
    }
  }

  /** The request an eUICC let in by r2 makes for its package. */
  predicate Requests(srv: Server, r2: Request, r3: Request, package: Octets)
    requires r2.Authenticate? && r2.response.Response?
  {
    && r3.GetPackage? && r3.transactionId == r2.transactionId && r3.download.Download? && r3.binding == Bound(package)
    && var d := r3.download;
       && |d.signature| == 64
       && srv.verifies(r2.response.euiccCert, d.signature, d.signed2 + ([0x5F, 0x37, 0x40] + r2.signature))
       && HexToBytes(r3.transactionId) == Some(srv.signed2(d.signed2).transactionId)
  }

  /**
   * An eUICC that may open a session, proves the challenge it was sent, and signs its request under what
   * it was sent gets its package, whatever requests about other transactions come in between.
   */
  lemma HonestDownload(srv: Server, rs: seq<Request>, r1: Request, others1: seq<Request>, r2: Request,
                       others2: seq<Request>, r3: Request, package: Octets)
    requires r1.Initiate? && MayOpen(srv, r1) && r1.uuid !in Run(srv, rs).store
    requires r2.Authenticate? && r2.transactionId == r1.uuid && r2.lookup.Found?
    requires Proves(srv, r1.random, srv.dpAuthorityKeyId, r2.response)
    requires Requests(srv, r2, r3, package)
    requires NoneNames(srv, others1, r1.uuid) && NoneNames(srv, others2, r1.uuid)
    ensures var before2 := rs + [r1] + others1;
            var before3 := before2 + [r2] + others2;
            && Handle(srv, Run(srv, rs).store, r1).reply == Initiated(r1.uuid, r1.random)
            && Handle(srv, Run(srv, before2).store, r2).reply == Granted(r1.uuid, [0x5F, 0x37, 0x40] + r2.signature)
            && Handle(srv, Run(srv, before3).store, r3).reply == Package(r1.uuid, package)
  {
    hide Handle, Run, Names, MayOpen, Proves, NoneNames;
    var tid, before2 := r1.uuid, rs + [r1] + others1;
    OpensSession(srv, Run(srv, rs).store, r1);
    RunStep(srv, rs, r1);
    OthersRun(srv, rs + [r1], others1, tid);
    LetsIn(srv, Run(srv, before2).store, r2);
    RunStep(srv, before2, r2);
    OthersRun(srv, before2 + [r2], others2, tid);
    HandsOut(srv, Run(srv, before2 + [r2] + others2).store, r2, r3, package);
  }

  lemma OpensSession(srv: Server, store: Store, r: Request)
    requires r.Initiate? && MayOpen(srv, r) && r.uuid !in store
    ensures var o := Handle(srv, store, r);
            && o.reply == Initiated(r.uuid, r.random) && r.uuid in o.store
            && o.store[r.uuid].serverChallenge == r.random && o.store[r.uuid].ciCertId == srv.dpAuthorityKeyId
  {
    hide BeforeColon, CiFor, ChooseCi;
    ChosenIssuedOurs(srv, Offered(r.info1.value));
  }

  lemma LetsIn(srv: Server, store: Store, r: Request)
    requires r.Authenticate? && r.transactionId in store && r.lookup.Found?
    requires var ss := store[r.transactionId]; Proves(srv, ss.serverChallenge, ss.ciCertId, r.response)
    ensures r.response.Response?
    ensures var o := Handle(srv, store, r);
            var signature2 := [0x5F, 0x37, 0x40] + r.signature;
            && o.reply == Granted(r.transactionId, signature2) && r.transactionId in o.store
            && o.store[r.transactionId].euiccCert == Some(r.response.euiccCert)
            && o.store[r.transactionId].signature2 == Some(signature2)
  {
    var ss := store[r.transactionId];
    hide Checked, CiFor, EidInRange;
    CheckedExactly(srv, ss, r.response);
  }

  lemma HandsOut(srv: Server, store: Store, r2: Request, r3: Request, package: Octets)
    requires r2.Authenticate? && r2.response.Response? && Requests(srv, r2, r3, package)
    requires r3.transactionId in store
    requires store[r3.transactionId].euiccCert == Some(r2.response.euiccCert)
    requires store[r3.transactionId].signature2 == Some([0x5F, 0x37, 0x40] + r2.signature)
    ensures Handle(srv, store, r3).reply == Package(r3.transactionId, package)
  {
    hide HexToBytes;
  }

  // ---- What one request can do to a session

  /** A session keeps its challenge and its CI. */
  lemma SessionKeepsItsTerms(srv: Server, store: Store, r: Request, tid: string)
    requires tid in store && tid in Handle(srv, store, r).store
    ensures var before, after := store[tid], Handle(srv, store, r).store[tid];
            && after.serverChallenge == before.serverChallenge && after.ciCertId == before.ciCertId
            && after.transactionId == before.transactionId
            && (after.euiccCert != before.euiccCert ==> r.Authenticate? && r.transactionId == tid)
  {
  }

  /** A session goes away only under a signature that its stored certificate verifies, over its own transaction. */
  lemma SessionEndsUnderItsCertificate(srv: Server, store: Store, r: Request, tid: string)
    requires tid in store && tid !in Handle(srv, store, r).store
    ensures store[tid].euiccCert.Some?
    ensures || (r.Cancel? && r.cancel.CancelOk?
                && srv.verifies(store[tid].euiccCert.value, r.cancel.signature, r.cancel.signed)
                && HexToBytes(tid) == Some(srv.cancelSigned(r.cancel.signed).transactionId))
            || (r.Notify? && r.notification.Installation?
                && srv.verifies(store[tid].euiccCert.value, r.notification.signature, r.notification.signed)
                && tid == Hex.HexOf(srv.signedTransaction(r.notification.signed)))
  {
    hide HexToBytes, Hex.HexOf, Checked;
  }

  /**
   * A request that is turned down leaves the store as it was, with one exception: a package that
   * could not be encoded has its one-time key written back already.
   */
  lemma RefusalsLeaveTheStore(srv: Server, store: Store, r: Request)
    requires Handle(srv, store, r).reply.ApiError? || Handle(srv, store, r).reply.Exception?
    ensures Handle(srv, store, r).event.None?
    ensures Handle(srv, store, r).store == store
         || (r.GetPackage? && r.binding.NotEncoded? && r.download.Download? && r.transactionId in store
             && Handle(srv, store, r).store
                == store[r.transactionId :=
                           store[r.transactionId].(otpk := Some(srv.signed2(r.download.signed2).otpk))])
  {
    hide HexToBytes, Hex.HexOf, Checked, BeforeColon, ChainsForVerification, ChooseCi;
  }

  // ---- Which session a notification finds

  predicate Decimal(s: string) {
    forall i :: 0 <= i < |s| ==> '0' <= s[i] <= '9'
  }

  /**
   * Sessions are kept under upper-case identifiers and notifications are looked up in lower case: the
   * installation result of a session finds it exactly when its identifier has no letter.
   */
  lemma NotificationFindsItsSession(srv: Server, rs: seq<Request>, tid: string)
    requires Drawn(rs) && tid in Run(srv, rs).store
    ensures HexToBytes(tid).Some?
    ensures Hex.HexOf(HexToBytes(tid).value) in Run(srv, rs).store <==> Decimal(tid)
  {
    hide Run, TrailOf, Hex.BytesOf, Hex.HexOf, Hex.LowerCase, Hex.IsHex, IsUuid;
    RunRecorded(srv, rs);
    UuidIsHex(tid);
    Hex.TextRoundTrip(tid);
    LowerCaseIsSame(tid);
    if Hex.LowerCase(tid) in Run(srv, rs).store {
      UpperIsLower(tid);
    }
  }

  lemma UuidIsHex(s: string)
    requires IsUuid(s)
    ensures |s| % 2 == 0 && Hex.IsHex(s)
  {
    forall i | 0 <= i < |s|
      ensures Hex.Nibble(s[i]).Some?
    {
      assert s[i] in UPPER;
    }
  }

  lemma LowerCaseIsSame(s: string)
    ensures Decimal(s) ==> Hex.LowerCase(s) == s
  {
  }

  lemma UpperIsLower(s: string)
    requires IsUuid(s) && IsUuid(Hex.LowerCase(s))
    ensures Decimal(s)
  {
    forall i | 0 <= i < |s|
      ensures '0' <= s[i] <= '9'
    {
      assert s[i] in UPPER && Hex.LowerCase(s)[i] in UPPER;
    }
  }

  /**
   * An installation result ends a session exactly when it names it and is signed under its certificate, and
   * the identifier has no letter.
   */
  lemma ResultEndsItsSessionExactly(srv: Server, rs: seq<Request>, tid: string, signed: Octets, signature: Octets)
    requires Drawn(rs) && tid in Run(srv, rs).store
    ensures var store := Run(srv, rs).store;
            var cert := store[tid].euiccCert;
            tid !in Handle(srv, store, Notify(Installation(signed, signature))).store <==>
              && HexToBytes(tid) == Some(srv.signedTransaction(signed))
              && cert.Some? && |signature| == 64 && srv.verifies(cert.value, signature, signed)
              && Decimal(tid)
  {
    hide Run, Hex.HexOf, Hex.BytesOf, HexToBytes, IsUuid, Decimal;
    RunRecorded(srv, rs);
    NamedInLowerCase(tid, srv.signedTransaction(signed));
  }

  lemma NamedInLowerCase(tid: string, id: Octets)
    requires IsUuid(tid)
    ensures Hex.HexOf(id) == tid <==> HexToBytes(tid) == Some(id) && Decimal(tid)
  {
    hide Hex.BytesOf, Hex.HexOf, Hex.LowerCase, Hex.IsHex, IsUuid, Decimal;
    UuidIsHex(tid);
    Hex.TextRoundTrip(tid);
    LowerCaseIsSame(tid);
    if Hex.HexOf(id) == tid {
      Hex.HexRoundTrip(id);
      UpperIsLower(tid);
    }
  }

  /** A session whose identifier has a letter outlives its own genuine installation result. */
  lemma LetteredSessionStays(srv: Server, rs: seq<Request>, tid: string, signed: Octets, signature: Octets)
    requires Drawn(rs) && tid in Run(srv, rs).store && !Decimal(tid)
    requires HexToBytes(tid) == Some(srv.signedTransaction(signed))
    ensures Handle(srv, Run(srv, rs).store, Notify(Installation(signed, signature)))
         == Outcome(Run(srv, rs).store, NoContent, None)
  {
    hide Run, Hex.HexOf, Decimal;
    NotificationFindsItsSession(srv, rs, tid);
  }
}
