/** One HTTP-01 issuance of the ACME client (app/acme/native_client.py) against an arbitrary
    server: nonces, polling, challenge files and the installed certificate
    (sections 6.5, 7.1.6 and 8.3 of RFC 8555). */
module AcmeClient {
  import opened PyText

  datatype Challenge = Challenge(kind: string, token: string, url: string)

  // None stands for a challenge entry that is not a JSON object.
  datatype Body =
    | NotJson
    | NotObject
    | Object(status: string, authorizations: seq<string>, challenges: seq<Option<Challenge>>,
             finalize: string, certificate: string)

  // One server reply, with the time it took and how much longer the next sleep lasts (ms).
  datatype Reply = Reply(
    code: nat, nonce: string, location: string, body: Body, content: string, took: nat, overslept: nat)

  // A redirect on the way to a reply. A 307 or 308 makes the HTTP client send the same request again.
  datatype Hop = Hop(code: nat, location: string)

  // What the server does with one request: redirects, then a reply or a broken connection.
  datatype Exchange = Exchange(hops: seq<Hop>, reply: Option<Reply>)

  const MAX_REDIRECTS: nat := 20

  // The addresses to which the signed body is sent again: any other redirect turns the request into a GET.
  function Resent(hops: seq<Hop>): seq<string> {
    if hops == [] || (hops[0].code != 307 && hops[0].code != 308) then []
    else [hops[0].location] + Resent(hops[1..])
  }

  function Followed(x: Exchange): Exchange {
    if |x.hops| > MAX_REDIRECTS then Exchange(x.hops[..MAX_REDIRECTS], None) else x
  }

  // A server that has nothing more to say has broken the connection.
  function NextExchange(replies: seq<Exchange>): Exchange {
    if replies == [] then Exchange([], None) else Followed(replies[0])
  }

  datatype Directory = Directory(newNonce: string, newAccount: string, newOrder: string)

  datatype Result<+T> = Ok(value: T) | Err(reason: Failure)

  // Why an issuance stops, one value for each place that raises.
  datatype Failure =
    | Transport | Undecodable | BadDirectory | NoNewNonce | NoReplayNonce | NoNonce
    | PollFailed | PollNotObject | AuthorizationInvalid | PollTimedOut
    | BadToken | CannotWrite | BadHost
    | NoNewAccount | NewAccountFailed | NoAccountLocation
    | NoWildcards | NoNewOrder | NewOrderFailed | NoOrderLocation | NoAuthorizations
    | AuthorizationFailed | BadAuthorization | NoHttp01 | TriggerFailed
    | NoFinalizeUrl | FinalizeFailed | NoCertificateUrl | DownloadFailed | NotPem

  // What an observer of the process sees, in order.
  datatype Event =
    | Posted(url: string, nonce: string, again: seq<string>, reply: Option<Reply>)
    | Wrote(name: string, content: string)
    | Installed(host: string, fullchain: string)

  type Log = seq<Event>

  // ----- Nonces along a log

  function NonceAfter(log: Log, first: string): string {
    if log == [] then first
    else
      var last := log[|log| - 1];
      if last.Posted? && last.reply.Some? && last.reply.value.nonce != "" then last.reply.value.nonce
      else if last.Posted? then last.nonce
      else NonceAfter(log[..|log| - 1], first)
  }

  // Every request carries the nonce the previous replies left behind.
  ghost predicate NonceChain(log: Log, first: string) {
    log == [] ||
    var last, before := log[|log| - 1], log[..|log| - 1];
    NonceChain(before, first) && (last.Posted? ==> last.nonce == NonceAfter(before, first))
  }

  lemma {:induction false} NoncesBeforePosts(log: Log, first: string)
    requires forall i :: 0 <= i < |log| ==> !log[i].Posted?
    ensures NonceAfter(log, first) == first
  {
    if log != [] {
      NoncesBeforePosts(log[..|log| - 1], first);
    }
  }

  lemma ChainGrows(log: Log, e: Event, first: string)
    requires NonceChain(log, first)
    requires e.Posted? ==> e.nonce == NonceAfter(log, first)
    ensures NonceChain(log + [e], first)
    ensures !e.Posted? ==> NonceAfter(log + [e], first) == NonceAfter(log, first)
  {
    assert (log + [e])[..|log|] == log;
  }

  // The log has grown by one request to the given address.
  ghost predicate OnePost(before: Log, after: Log, url: string, reply: Option<Reply>) {
    && |after| == |before| + 1 && before <= after
    && after[|before|].Posted? && after[|before|].url == url && after[|before|].reply == reply
  }

  // ----- Orders along a log

  predicate Saw(e: Event, url: string, status: string) {
    && e.Posted? && e.url == url && e.reply.Some?
    && (e.reply.value.code == 200 || e.reply.value.code == 202)
    && e.reply.value.body.Object? && e.reply.value.body.status == status
  }

  ghost predicate SawBetween(log: Log, from: nat, to: nat, url: string, status: string) {
    exists i :: from <= i < to && i < |log| && Saw(log[i], url, status)
  }

  // From position `from` on: every authorization valid, then the order ready, then an accepted
  // finalize, then the order valid, then the download.
  ghost predicate Completed(log: Log, from: nat, order: string, authz: seq<string>, fullchain: string) {
    exists m :: from <= m <= |log| && Authorized(log, from, m, authz) && Finished(log, m, order, fullchain)
  }

  // A certificate is installed exactly by a success, and then as its last act.
  ghost predicate InstalledLast(before: Log, after: Log, r: Result<string>, host: string) {
    && before <= after
    && (r.Ok? ==> |after| > |before| && after[|after| - 1] == Installed(host, r.value) && NoInstall(before, after[..|after| - 1]))
    && (r.Err? ==> NoInstall(before, after))
  }

  // Position n is the accepted new order whose authorizations and completion follow.
  ghost predicate IssuedFrom(log: Log, n: nat, fullchain: string) {
    && n < |log| && log[n].Posted? && log[n].reply.Some? && log[n].reply.value.code == 201
    && log[n].reply.value.body.Object? && log[n].reply.value.body.authorizations != []
    && Completed(log, n + 1, log[n].reply.value.location, log[n].reply.value.body.authorizations, fullchain)
  }

  ghost predicate Issued(log: Log, from: nat, fullchain: string) {
    exists n :: from <= n < |log| && IssuedFrom(log, n, fullchain)
  }

  ghost predicate Authorized(log: Log, from: nat, to: nat, authz: seq<string>) {
    forall i :: 0 <= i < |authz| ==> SawBetween(log, from, to, authz[i], "valid")
  }

  ghost predicate Finished(log: Log, from: nat, order: string, fullchain: string) {
    exists r, f, v, d :: FinishedAt(log, from, order, fullchain, r, f, v, d)
  }

  ghost predicate FinishedAt(log: Log, from: nat, order: string, fullchain: string, r: nat, f: nat, v: nat, d: nat) {
    && from <= r < f < v < d < |log|
    && Saw(log[r], order, "ready")
    && IsFinalize(log[f], log[r])
    && Saw(log[v], order, "valid")
    && IsDownload(log[d], log[v], fullchain)
  }

  predicate IsFinalize(e: Event, ready: Event) {
    && ready.Posted? && ready.reply.Some? && ready.reply.value.body.Object?
    && e.Posted? && e.url == ready.reply.value.body.finalize
    && e.reply.Some? && (e.reply.value.code == 200 || e.reply.value.code == 202)
  }

  predicate IsDownload(e: Event, valid: Event, fullchain: string) {
    && valid.Posted? && valid.reply.Some? && valid.reply.value.body.Object?
    && e.Posted? && e.url == valid.reply.value.body.certificate
    && e.reply.Some? && e.reply.value.code == 200 && e.reply.value.content == fullchain
  }

  // The challenge files written from position `from` on.
  ghost function Written(log: Log, from: nat): set<string> {
    set i | 0 <= i < |log| && from <= i && log[i].Wrote? :: log[i].name
  }

  // The log has grown by requests only.
  ghost predicate OnlyPosts(before: Log, after: Log) {
    before <= after && forall i :: |before| <= i < |after| ==> after[i].Posted?
  }

  // The log has grown without a certificate being installed.
  ghost predicate NoInstall(before: Log, after: Log) {
    before <= after && forall i :: |before| <= i < |after| ==> !after[i].Installed?
  }

  lemma NoInstallTransitive(a: Log, b: Log, c: Log)
    requires NoInstall(a, b) && NoInstall(b, c)
    ensures NoInstall(a, c)
  {
    assert forall i :: 0 <= i < |b| ==> c[i] == b[i];
  }

  lemma WrittenByInstall(log: Log, host: string, fullchain: string, from: nat)
    ensures Written(log + [Installed(host, fullchain)], from) == Written(log, from)
  {
    var after := log + [Installed(host, fullchain)];
    assert forall i :: 0 <= i < |log| ==> after[i] == log[i];
  }

  // The log has grown by requests to one address only.
  ghost predicate PostsTo(before: Log, after: Log, url: string) {
    OnlyPosts(before, after) && forall i :: |before| <= i < |after| ==> after[i].url == url
  }

  lemma PostsToGrows(a: Log, b: Log, c: Log, url: string, reply: Option<Reply>)
    requires PostsTo(a, b, url) && OnePost(b, c, url, reply)
    ensures PostsTo(a, c, url)
  {
    assert forall i :: 0 <= i < |b| ==> c[i] == b[i];
  }

  lemma OnlyPostsTransitive(a: Log, b: Log, c: Log)
    requires OnlyPosts(a, b) && OnlyPosts(b, c)
    ensures OnlyPosts(a, c)
  {
    assert forall i :: 0 <= i < |b| ==> c[i] == b[i];
  }

  lemma OnePostIsPosts(a: Log, b: Log, url: string, r: Result<Reply>)
    requires if r.Ok? then OnePost(a, b, url, Some(r.value)) else b == a || OnePost(a, b, url, None)
    ensures OnlyPosts(a, b)
  {}

  // A finished order is its two halves one after the other.
  lemma FinishedIntro(start: Log, middle: Log, end: Log, order: string, fullchain: string)
    requires OnlyPosts(start, middle) && |middle| >= |start| + 2
    requires Saw(middle[|middle| - 2], order, "ready") && IsFinalize(middle[|middle| - 1], middle[|middle| - 2])
    requires OnlyPosts(middle, end) && |end| >= |middle| + 2
    requires Saw(end[|end| - 2], order, "valid") && IsDownload(end[|end| - 1], end[|end| - 2], fullchain)
    ensures OnlyPosts(start, end) && Finished(end, |start|, order, fullchain)
  {
    OnlyPostsTransitive(start, middle, end);
    assert end[|middle| - 2] == middle[|middle| - 2] && end[|middle| - 1] == middle[|middle| - 1];
    assert FinishedAt(end, |start|, order, fullchain, |middle| - 2, |middle| - 1, |end| - 2, |end| - 1);
  }

  lemma WrittenByPosts(before: Log, after: Log, from: nat)
    requires OnlyPosts(before, after)
    ensures Written(after, from) == Written(before, from)
  {
    assert forall i :: 0 <= i < |before| ==> after[i] == before[i];
  }

  lemma WrittenByWrite(log: Log, name: string, content: string, from: nat)
    requires from <= |log|
    ensures Written(log + [Wrote(name, content)], from) == Written(log, from) + {name}
  {
    var after := log + [Wrote(name, content)];
    assert forall i :: 0 <= i < |log| ==> after[i] == log[i];
    assert after[|log|] == Wrote(name, content);
  }

  // Files outside `written` are as before; those in `written` exist.
  ghost predicate WebrootFrame(before: map<string, string>, after: map<string, string>, written: set<string>) {
    && (forall n :: n in written ==> n in after)
    && (forall n :: n !in written ==>
         (n in after <==> n in before) && (n in after && n in before ==> after[n] == before[n]))
  }

  // timeout / interval, rounded up.
  function CeilDiv(a: nat, b: nat): nat
    requires b > 0
  {
    (a + b - 1) / b
  }

  function Elapsed(polls: nat, interval: nat): nat {
    if polls == 0 then 0 else Elapsed(polls - 1, interval) + interval
  }

  lemma {:induction false} ElapsedIsProduct(polls: nat, interval: nat)
    ensures Elapsed(polls, interval) == polls * interval
  {
    if polls > 0 {
      ElapsedIsProduct(polls - 1, interval);
    }
  }

  // Polls are `interval` apart, so a poll before the deadline has fewer than timeout / interval before it.
  lemma OneMorePoll(polls: nat, timeout: nat, interval: nat)
    requires interval > 0 && Elapsed(polls, interval) < timeout
    ensures polls + 1 <= CeilDiv(timeout, interval)
  {
    var q := CeilDiv(timeout, interval);
    ElapsedIsProduct(polls, interval);
    assert (q + 1) * interval > timeout + interval - 1;
    ProductGrows(q, polls, interval);
  }

  lemma ProductGrows(a: nat, b: nat, k: nat)
    ensures a <= b ==> a * k <= b * k
  {}

  // ----- Challenges along a log

  // The reply offers this http-01 challenge before any other one of that kind.
  ghost predicate OffersFirst(e: Event, c: Challenge) {
    && e.Posted? && e.reply.Some? && e.reply.value.code == 200 && e.reply.value.body.Object?
    && exists k: nat :: IsFirstHttp01(e.reply.value.body.challenges, c, k)
  }

  predicate IsFirstHttp01(challenges: seq<Option<Challenge>>, c: Challenge, k: nat) {
    && k < |challenges| && challenges[k] == Some(c) && c.kind == "http-01"
    && forall j :: 0 <= j < k ==> challenges[j].None? || challenges[j].value.kind != "http-01"
  }

  predicate WasAccepted(e: Event) {
    e.Posted? && e.reply.Some? && (e.reply.value.code == 200 || e.reply.value.code == 202)
  }

  // A written challenge file answers the offer in the reply just before it, with the key authorization of its
  // token (section 8.1 of RFC 8555). The next event triggers that challenge, and the one after an accepted
  // trigger polls the authorization that made the offer.
  ghost predicate AnswersOffer(log: Log, w: nat, thumbprint: string)
    requires w < |log| && log[w].Wrote?
  {
    w > 0 && exists c ::
      && OffersFirst(log[w - 1], c)
      && log[w].name == Strip(c.token) && log[w].content == c.token + "." + thumbprint
      && (w + 1 < |log| ==> log[w + 1].Posted? && log[w + 1].url == c.url)
      && (w + 2 < |log| ==> WasAccepted(log[w + 1]) && log[w + 2].Posted? && log[w + 2].url == log[w - 1].url)
  }

  ghost predicate AllAnswerOffers(log: Log, from: nat, thumbprint: string) {
    forall w :: from <= w < |log| && log[w].Wrote? ==> AnswersOffer(log, w, thumbprint)
  }

  // Every challenge written from there on has been triggered and polled.
  ghost predicate Settled(log: Log, from: nat) {
    forall w :: from <= w < |log| && log[w].Wrote? ==> w + 2 < |log|
  }

  lemma AnswersKept(before: Log, after: Log, w: nat, thumbprint: string)
    requires before <= after && w + 2 < |before| && before[w].Wrote? && AnswersOffer(before, w, thumbprint)
    ensures AnswersOffer(after, w, thumbprint)
  {
    assert after[w] == before[w] && after[w - 1] == before[w - 1] && after[w + 1] == before[w + 1] && after[w + 2] == before[w + 2];
  }

  lemma AnswersExtend(before: Log, after: Log, from: nat, thumbprint: string)
    requires before <= after && from <= |before|
    requires AllAnswerOffers(before, from, thumbprint) && AllAnswerOffers(after, |before|, thumbprint)
    requires Settled(before, from)
    ensures AllAnswerOffers(after, from, thumbprint)
    ensures Settled(after, |before|) ==> Settled(after, from)
  {
    forall w | from <= w < |after| && after[w].Wrote?
      ensures AnswersOffer(after, w, thumbprint)
    {
      if w < |before| {
        assert before[w] == after[w];
        AnswersKept(before, after, w, thumbprint);
      }
    }
    forall w | from <= w < |before| && after[w].Wrote?
      ensures w + 2 < |after|
    {
      assert before[w] == after[w];
    }
  }

  lemma NoWritesAnswer(before: Log, after: Log, thumbprint: string)
    requires before <= after && forall i :: |before| <= i < |after| ==> !after[i].Wrote?
    ensures AllAnswerOffers(after, |before|, thumbprint) && Settled(after, |before|)
  {}

  lemma {:induction false} PickedIsFirst(challenges: seq<Option<Challenge>>)
    ensures PickHttp01(challenges).Some? ==> exists k: nat :: IsFirstHttp01(challenges, PickHttp01(challenges).value, k)
    ensures PickHttp01(challenges).None? ==>
      forall j :: 0 <= j < |challenges| ==> challenges[j].None? || challenges[j].value.kind != "http-01"
  {
    if challenges != [] {
      var rest := challenges[1..];
      if challenges[0].Some? && challenges[0].value.kind == "http-01" {
        var k: nat := 0;
        assert IsFirstHttp01(challenges, PickHttp01(challenges).value, k);
      } else {
        PickedIsFirst(rest);
        assert forall j :: 0 < j < |challenges| ==> challenges[j] == rest[j - 1];
        if PickHttp01(rest).Some? {
          var k: nat :| IsFirstHttp01(rest, PickHttp01(rest).value, k);
          assert challenges[k + 1] == rest[k];
          assert IsFirstHttp01(challenges, PickHttp01(rest).value, k + 1);
        }
      }
    }
  }

  // One authorization: its reply, the file, the trigger and the first poll, as far as they happened.
  lemma OneAnswer(log: Log, w: nat, c: Challenge, url: string, thumbprint: string, from: nat)
    requires 0 < w < |log| && from <= w && log[w] == Wrote(Strip(c.token), c.token + "." + thumbprint)
    requires OffersFirst(log[w - 1], c) && log[w - 1].url == url
    requires w + 1 < |log| ==> log[w + 1].Posted? && log[w + 1].url == c.url
    requires w + 2 < |log| ==> WasAccepted(log[w + 1]) && log[w + 2].Posted? && log[w + 2].url == url
    requires forall i :: from <= i < |log| && i != w ==> !log[i].Wrote?
    ensures AllAnswerOffers(log, from, thumbprint)
    ensures w + 2 < |log| ==> Settled(log, from)
  {
    assert AnswersOffer(log, w, thumbprint);
  }

  // ----- Polls along a log

  // A reply that decides nothing.
  predicate Pending(e: Event, wanted: string) {
    && WasAccepted(e) && e.reply.value.body.Object?
    && e.reply.value.body.status != wanted && e.reply.value.body.status != "invalid"
  }

  ghost predicate AllPending(log: Log, from: nat, wanted: string) {
    forall i :: from <= i < |log| ==> Pending(log[i], wanted)
  }

  lemma PendingGrows(before: Log, after: Log, from: nat, wanted: string)
    requires AllPending(before, from, wanted) && before <= after && |after| == |before| + 1 && Pending(after[|before|], wanted)
    ensures AllPending(after, from, wanted) && after[..|after| - 1] == before
  {
    assert forall i :: 0 <= i < |before| ==> after[i] == before[i];
  }

  predicate SawInvalid(e: Event) { WasAccepted(e) && e.reply.value.body.Object? && e.reply.value.body.status == "invalid" }

  // ----- Pure pieces

  predicate BadFileName(safe: string) { safe == "" || '/' in safe || '\\' in safe }

  predicate GoodNames(tokens: seq<string>) { forall i :: 0 <= i < |tokens| ==> !BadFileName(Strip(tokens[i])) }

  predicate HasDots(s: string) { exists i :: 0 <= i < |s| - 1 && s[i] == '.' && s[i + 1] == '.' }

  function PickHttp01(challenges: seq<Option<Challenge>>): Option<Challenge> {
    if challenges == [] then None
    else if challenges[0].Some? && challenges[0].value.kind == "http-01" then challenges[0]
    else PickHttp01(challenges[1..])
  }

  predicate IsPem(content: string) {
    exists i :: 0 <= i <= |content| && "BEGIN CERTIFICATE" <= content[i..]
  }

  class Client {
    // The server and the machine: what they will answer, in order.
    var replies: seq<Exchange>
    const directoryReply: Option<Directory>
    const headNonce: string
    const canWrite: string -> bool
    const canUnlink: string -> bool
    const contact: string
    const thumbprint: string

    var clock: nat
    var webroot: map<string, string>
    var certs: map<string, (string, string)>
    var savedKid: string
    var directory: Option<Directory>
    var nonce: string
    var kid: string
    ghost var log: Log

    constructor (replies: seq<Exchange>, directoryReply: Option<Directory>, headNonce: string,
                 canWrite: string -> bool, canUnlink: string -> bool, contact: string, thumbprint: string,
                 webroot: map<string, string>, certs: map<string, (string, string)>, savedKid: string)
      ensures Valid() && log == []
      ensures this.webroot == webroot && this.certs == certs
    {
      this.replies, this.directoryReply, this.headNonce := replies, directoryReply, headNonce;
      this.canWrite, this.canUnlink, this.contact, this.thumbprint := canWrite, canUnlink, contact, thumbprint;
      this.webroot, this.certs, this.savedKid := webroot, certs, savedKid;
      clock, directory, nonce, kid := 0, None, "", "";
      log := [];
    }

    ghost predicate Valid()
      reads this
    {
      && NonceChain(log, headNonce)
      && (directory.None? ==> nonce == "")
      && (if nonce == "" then forall i :: 0 <= i < |log| ==> !log[i].Posted?
          else nonce == NonceAfter(log, headNonce))
    }

    method EnsureDirectory() returns (r: Result<Directory>)
      requires Valid()
      modifies this`directory, this`nonce
      ensures Valid()
      ensures r.Ok? ==> directory == Some(r.value)
      ensures old(directory).Some? ==> r == Ok(old(directory).value) && directory == old(directory) && nonce == old(nonce)
      ensures old(directory).None? && r.Ok? ==> directory == directoryReply && nonce == headNonce
      ensures old(directory).None? && directoryReply.Some? ==> directory == directoryReply
      ensures r.Err? ==> r.reason in {BadDirectory, NoNewNonce, NoReplayNonce}
      ensures old(directory).None? ==>
        (r.Ok? <==> directoryReply.Some? && directoryReply.value.newNonce != "" && headNonce != "")
    {
      if directory.Some? {
        return Ok(directory.value);
      }
      if directoryReply.None? {
        return Err(BadDirectory);
      }
      directory := directoryReply;
      if directory.value.newNonce == "" {
        return Err(NoNewNonce);
      }
      if headNonce == "" {
        return Err(NoReplayNonce);
      }
      nonce := headNonce;
      NoncesBeforePosts(log, headNonce);
      return Ok(directory.value);
    }

    method SignedPost(url: string) returns (r: Result<Reply>)
      requires Valid()
      modifies this`directory, this`nonce, this`replies, this`clock, this`log
      ensures Valid()
      ensures clock >= old(clock)
      ensures old(directory).Some? ==> directory == old(directory)
      ensures r.Ok? ==> OnePost(old(log), log, url, Some(r.value))
      ensures r.Err? ==> log == old(log) || OnePost(old(log), log, url, None)
      ensures r.Err? ==> r.reason in {Transport, BadDirectory, NoNewNonce, NoReplayNonce, NoNonce}
      ensures log != old(log) ==>
        |log| > |old(log)| && log[|old(log)|].Posted? && log[|old(log)|].again == Resent(NextExchange(old(replies)).hops)
    {
      var dir := EnsureDirectory();
      if dir.Err? {
        return Err(dir.reason);
      }
      if nonce == "" {
        return Err(NoNonce);
      }
      var exchange := NextExchange(replies);
      var again, reply := Resent(exchange.hops), exchange.reply;
      replies := if replies == [] then [] else replies[1..];
      ChainGrows(log, Posted(url, nonce, again, reply), headNonce);
      log := log + [Posted(url, nonce, again, reply)];
      if reply.None? {
        return Err(Transport);
      }
      clock := clock + reply.value.took;
      if reply.value.nonce != "" {
        nonce := reply.value.nonce;
      }
      return Ok(reply.value);
    }

    // Poll until the wanted status, an invalid one, an error or the deadline.
    method Poll(url: string, wanted: string, timeout: nat := 90_000, interval: nat := 2_000) returns (r: Result<Reply>)
      requires Valid() && interval > 0
      modifies this`directory, this`nonce, this`replies, this`clock, this`log
      ensures Valid()
      ensures PostsTo(old(log), log, url)
      ensures |log| - |old(log)| <= CeilDiv(timeout, interval)
      ensures r.Ok? ==> |log| > |old(log)| && Saw(log[|log| - 1], url, wanted)
                        && log[|log| - 1].reply == Some(r.value)
      ensures |log| > |old(log)| ==> AllPending(log[..|log| - 1], |old(log)|, wanted)
      ensures r == Err(AuthorizationInvalid) <==> |log| > |old(log)| && SawInvalid(log[|log| - 1])
      ensures r == Err(PollTimedOut) ==> |log| == |old(log)| || Pending(log[|log| - 1], wanted)
    {
      var deadline := clock + timeout;
      ghost var polls := 0;
      while clock < deadline
        invariant Valid()
        invariant PostsTo(old(log), log, url)
        invariant |log| == |old(log)| + polls
        invariant AllPending(log, |old(log)|, wanted)
        invariant deadline == old(clock) + timeout
        invariant clock >= old(clock) + Elapsed(polls, interval)
        invariant polls <= CeilDiv(timeout, interval)
        decreases deadline - clock
      {
        ghost var before := log;
        OneMorePoll(polls, timeout, interval);
        var posted := SignedPost(url);
        if log != before {
          PostsToGrows(old(log), before, log, url, if posted.Ok? then Some(posted.value) else None);
        }
        if posted.Err? {
          return Err(posted.reason);
        }
        polls := polls + 1;
        var reply := posted.value;
        if reply.code != 200 && reply.code != 202 {
          return Err(PollFailed);
        }
        match reply.body {
          case NotJson => return Err(Undecodable);
          case NotObject => return Err(PollNotObject);
          case Object(status, _, _, _, _) =>
            if status == "invalid" {
              return Err(AuthorizationInvalid);
            }
            if status == wanted {
              return Ok(reply);
            }
        }
        PendingGrows(before, log, |old(log)|, wanted);
        clock := clock + interval + reply.overslept;
      }
      return Err(PollTimedOut);
    }

    // Write one challenge file; a refused name or write leaves the directory as it was.
    method WriteToken(token: string, keyAuthorization: string) returns (r: Result<string>)
      requires Valid()
      modifies this`webroot, this`log
      ensures Valid()
      ensures r.Ok? ==> r.value == Strip(token) && !BadFileName(r.value)
                        && log == old(log) + [Wrote(r.value, keyAuthorization)]
                        && webroot == old(webroot)[r.value := keyAuthorization]
      ensures r.Err? ==> log == old(log) && webroot == old(webroot)
      ensures r.Ok? <==> !BadFileName(Strip(token)) && !HasDots(Strip(token)) && canWrite(Strip(token))
      ensures r == Err(BadToken) <==> (var name := Strip(token); name == "" || '/' in name || '\\' in name || HasDots(name))
    {
      var safe := Strip(token);
      if BadFileName(safe) || HasDots(safe) {
        return Err(BadToken);
      }
      if !canWrite(safe) {
        return Err(CannotWrite);
      }
      ChainGrows(log, Wrote(safe, keyAuthorization), headNonce);
      webroot := webroot[safe := keyAuthorization];
      log := log + [Wrote(safe, keyAuthorization)];
      return Ok(safe);
    }

    method ClearToken(token: string)
      requires Valid()
      modifies this`webroot
      ensures Valid()
      ensures var safe := Strip(token);
        webroot == if BadFileName(safe) || !canUnlink(safe) then old(webroot) else old(webroot) - {safe}
    {
      var safe := Strip(token);
      if BadFileName(safe) {
        return;
      }
      if safe in webroot && canUnlink(safe) {
        webroot := webroot - {safe};
      }
    }

    // One authorization: nothing to do when it is valid, else its challenge file is written,
    // the challenge triggered and the authorization polled.
    method Authorize(url: string) returns (r: Result<bool>, token: Option<string>)
      requires Valid()
      modifies this`directory, this`nonce, this`replies, this`clock, this`log, this`webroot
      ensures Valid() && old(log) <= log
      ensures token.Some? ==> !BadFileName(Strip(token.value))
      ensures Written(log, |old(log)|) == if token.Some? then {Strip(token.value)} else {}
      ensures WebrootFrame(old(webroot), webroot, Written(log, |old(log)|))
      ensures NoInstall(old(log), log)
      ensures r.Ok? ==> SawBetween(log, |old(log)|, |log|, url, "valid")
      ensures AllAnswerOffers(log, |old(log)|, thumbprint) && (r.Ok? ==> Settled(log, |old(log)|))
    {
      token := None;
      ghost var from := |log|;
      var authz := SignedPost(url);
      WrittenByPosts(old(log), log, from);
      if authz.Err? {
        return Err(authz.reason), None;
      }
      if authz.value.code != 200 {
        return Err(AuthorizationFailed), None;
      }
      if !authz.value.body.Object? {
        return Err(BadAuthorization), None;
      }
      if authz.value.body.status == "valid" {
        assert Saw(log[from], url, "valid");
        return Ok(true), None;
      }
      var challenge := PickHttp01(authz.value.body.challenges);
      if challenge.None? {
        return Err(NoHttp01), None;
      }
      ghost var middle := log;
      PickedIsFirst(authz.value.body.challenges);
      assert OffersFirst(log[|log| - 1], challenge.value);
      r, token := Answer(url, challenge.value);
      WrittenSplits(middle, log, from);
      NoInstallTransitive(old(log), middle, log);
      NoWritesAnswer(old(log), middle, thumbprint);
      AnswersExtend(middle, log, from, thumbprint);
    }

    // The challenge just offered: write its file, trigger it, poll the authorization.
    method Answer(url: string, c: Challenge) returns (r: Result<bool>, token: Option<string>)
      requires Valid() && log != [] && OffersFirst(log[|log| - 1], c) && log[|log| - 1].url == url
      modifies this`directory, this`nonce, this`replies, this`clock, this`log, this`webroot
      ensures Valid() && old(log) <= log
      ensures token.Some? ==> !BadFileName(Strip(token.value))
      ensures Written(log, |old(log)|) == if token.Some? then {Strip(token.value)} else {}
      ensures WebrootFrame(old(webroot), webroot, Written(log, |old(log)|))
      ensures NoInstall(old(log), log)
      ensures r.Ok? ==> |log| > |old(log)| && Saw(log[|log| - 1], url, "valid")
      ensures AllAnswerOffers(log, |old(log)|, thumbprint) && (r.Ok? ==> Settled(log, |old(log)|))
    {
      ghost var from := |log|;
      var content := c.token + "." + thumbprint;
      var written := WriteToken(c.token, content);
      if written.Err? {
        return Err(written.reason), None;
      }
      WrittenByWrite(old(log), written.value, content, from);
      ghost var middle := log;
      token := Some(c.token);
      var validated := Validate(c.url, url);
      WrittenByPosts(middle, log, from);
      assert log[from] == middle[from] && log[from - 1] == middle[from - 1];
      OneAnswer(log, from, c, url, thumbprint, from);
      r := if validated.Ok? then Ok(true) else Err(validated.reason);
    }

    // Trigger the challenge, then poll its authorization until it is valid.
    method Validate(challengeUrl: string, url: string) returns (r: Result<Reply>)
      requires Valid()
      modifies this`directory, this`nonce, this`replies, this`clock, this`log
      ensures Valid() && OnlyPosts(old(log), log)
      ensures r.Ok? ==> |log| >= |old(log)| + 2 && Saw(log[|log| - 1], url, "valid")
      ensures |log| > |old(log)| ==> log[|old(log)|].url == challengeUrl
      ensures |log| > |old(log)| + 1 ==> WasAccepted(log[|old(log)|]) && log[|old(log)| + 1].url == url
    {
      r := SignedPost(challengeUrl);
      ghost var middle := log;
      OnePostIsPosts(old(log), middle, challengeUrl, r);
      if r.Err? {
        return;
      }
      if r.value.code != 200 && r.value.code != 202 {
        return Err(TriggerFailed);
      }
      r := Poll(url, "valid");
      OnlyPostsTransitive(old(log), middle, log);
    }

    // All authorizations of the order, one after the other.
    method AuthorizeAll(authz: seq<string>) returns (r: Result<bool>, tokens: seq<string>)
      requires Valid()
      modifies this`directory, this`nonce, this`replies, this`clock, this`log, this`webroot
      ensures Valid() && old(log) <= log
      ensures GoodNames(tokens)
      ensures Written(log, |old(log)|) == Names(tokens) && NoInstall(old(log), log)
      ensures WebrootFrame(old(webroot), webroot, Names(tokens))
      ensures r.Ok? ==> Authorized(log, |old(log)|, |log|, authz)
      ensures AllAnswerOffers(log, |old(log)|, thumbprint) && (r.Ok? ==> Settled(log, |old(log)|))
    {
      tokens := [];
      ghost var from := |log|;
      for i := 0 to |authz|
        invariant Valid() && old(log) <= log && NoInstall(old(log), log)
        invariant GoodNames(tokens)
        invariant Written(log, from) == Names(tokens)
        invariant WebrootFrame(old(webroot), webroot, Names(tokens))
        invariant Authorized(log, from, |log|, authz[..i])
        invariant AllAnswerOffers(log, from, thumbprint) && Settled(log, from)
      {
        ghost var before, files := log, webroot;
        var done, token := Authorize(authz[i]);
        AuthorizedStep(old(log), before, log, tokens, token, authz, i, thumbprint);
        FrameStep(old(webroot), files, webroot, Names(tokens), Written(log, |before|));
        NamesGrow(tokens, token);
        if token.Some? {
          tokens := tokens + [token.value];
        }
        if done.Err? {
          return Err(done.reason), tokens;
        }
      }
      assert authz[..|authz|] == authz;
      return Ok(true), tokens;
    }

    // Once the order polls ready, its finalize URL is accepted.
    method FinalizeOrder(order: string) returns (r: Result<Reply>)
      requires Valid()
      modifies this`directory, this`nonce, this`replies, this`clock, this`log
      ensures Valid() && OnlyPosts(old(log), log)
      ensures r.Ok? ==> |log| >= |old(log)| + 2
                        && Saw(log[|log| - 2], order, "ready") && IsFinalize(log[|log| - 1], log[|log| - 2])
    {
      var ready := Poll(order, "ready");
      if ready.Err? {
        return ready;
      }
      ghost var middle := log;
      if !ready.value.body.Object? || ready.value.body.finalize == "" {
        return Err(NoFinalizeUrl);
      }
      r := SignedPost(ready.value.body.finalize);
      OnePostIsPosts(middle, log, ready.value.body.finalize, r);
      OnlyPostsTransitive(old(log), middle, log);
      if r.Ok? && r.value.code != 200 && r.value.code != 202 {
        return Err(FinalizeFailed);
      }
    }

    // Once the order polls valid, its certificate is downloaded.
    method DownloadCertificate(order: string) returns (r: Result<string>)
      requires Valid()
      modifies this`directory, this`nonce, this`replies, this`clock, this`log
      ensures Valid() && OnlyPosts(old(log), log)
      ensures r.Ok? ==> |log| >= |old(log)| + 2 && IsPem(r.value)
                        && Saw(log[|log| - 2], order, "valid") && IsDownload(log[|log| - 1], log[|log| - 2], r.value)
    {
      var valid := Poll(order, "valid");
      if valid.Err? {
        return Err(valid.reason);
      }
      ghost var middle := log;
      if !valid.value.body.Object? || valid.value.body.certificate == "" {
        return Err(NoCertificateUrl);
      }
      var download := SignedPost(valid.value.body.certificate);
      OnePostIsPosts(middle, log, valid.value.body.certificate, download);
      OnlyPostsTransitive(old(log), middle, log);
      if download.Err? {
        return Err(download.reason);
      }
      if download.value.code != 200 {
        return Err(DownloadFailed);
      }
      if !IsPem(download.value.content) {
        return Err(NotPem);
      }
      return Ok(download.value.content);
    }

    // From a validated order to the downloaded certificate.
    method FinishOrder(order: string) returns (r: Result<string>)
      requires Valid()
      modifies this`directory, this`nonce, this`replies, this`clock, this`log
      ensures Valid() && OnlyPosts(old(log), log)
      ensures r.Ok? ==> IsPem(r.value) && Finished(log, |old(log)|, order, r.value)
    {
      var finalized := FinalizeOrder(order);
      if finalized.Err? {
        return Err(finalized.reason);
      }
      ghost var middle := log;
      r := DownloadCertificate(order);
      OnlyPostsTransitive(old(log), middle, log);
      if r.Ok? {
        FinishedIntro(old(log), middle, log, order, r.value);
      }
    }

    // The part of the issuance whose challenge files are cleaned up afterwards.
    method RunOrder(host: string, order: string, authz: seq<string>, domainKey: string)
      returns (r: Result<string>, tokens: seq<string>)
      requires Valid()
      modifies this`directory, this`nonce, this`replies, this`clock, this`log, this`webroot, this`certs
      ensures Valid() && old(log) <= log
      ensures GoodNames(tokens)
      ensures Written(log, |old(log)|) == Names(tokens)
      ensures WebrootFrame(old(webroot), webroot, Names(tokens))
      ensures r.Err? ==> certs == old(certs)
      ensures r.Ok? ==> IsPem(r.value) && certs == old(certs)[host := (r.value, domainKey)]
      ensures InstalledLast(old(log), log, r, host)
      ensures r.Ok? ==> Completed(log[..|log| - 1], |old(log)|, order, authz, r.value)
      ensures AllAnswerOffers(log, |old(log)|, thumbprint)
    {
      var authorized;
      authorized, tokens := AuthorizeAll(authz);
      if authorized.Err? {
        return Err(authorized.reason), tokens;
      }
      ghost var middle := log;
      r := FinishOrder(order);
      WrittenByPosts(middle, log, |old(log)|);
      SawKept(middle, log, |old(log)|, |middle|, |middle|, authz);
      NoInstallTransitive(old(log), middle, log);
      NoWritesAnswer(middle, log, thumbprint);
      AnswersExtend(middle, log, |old(log)|, thumbprint);
      if r.Err? {
        return;
      }
      if host == "" || '/' in host || HasDots(host) {
        return Err(BadHost), tokens;
      }
      ghost var finished := log;
      certs := certs[host := (r.value, domainKey)];
      ChainGrows(log, Installed(host, r.value), headNonce);
      WrittenByInstall(log, host, r.value, |old(log)|);
      log := log + [Installed(host, r.value)];
      assert log[..|log| - 1] == finished;
      NoWritesAnswer(finished, log, thumbprint);
      AnswersExtend(finished, log, |old(log)|, thumbprint);
    }

    // The `finally` clause: every challenge file that was written is removed, unless the file system refuses.
    method CleanUp(tokens: seq<string>)
      requires Valid() && GoodNames(tokens)
      modifies this`webroot
      ensures Valid()
      ensures webroot == Cleared(old(webroot), Names(tokens), canUnlink)
    {
      ghost var before := webroot;
      assert before == Cleared(before, Names(tokens[..0]), canUnlink);
      for i := 0 to |tokens|
        invariant Valid()
        invariant webroot == Cleared(before, Names(tokens[..i]), canUnlink)
      {
        ClearToken(tokens[i]);
        ClearedGrows(before, tokens, i, canUnlink);
      }
      assert tokens[..|tokens|] == tokens;
    }

    // The account: a saved key identifier is reused, else one is registered (once more without
    // the contact when the server rejects it).
    method EnsureAccount() returns (r: Result<Directory>)
      requires Valid()
      modifies this`directory, this`nonce, this`replies, this`clock, this`log, this`kid, this`savedKid
      ensures Valid() && OnlyPosts(old(log), log)
      ensures r.Ok? ==> directory == Some(r.value) && kid != ""
      ensures savedKid != old(savedKid) ==> r.Ok? && savedKid == kid
      ensures |log| <= |old(log)| + 2
      ensures Strip(old(savedKid)) != "" && r.Ok? ==> kid == Strip(old(savedKid)) && log == old(log) && savedKid == old(savedKid)
      ensures Strip(old(savedKid)) == "" && old(kid) != "" && r.Ok? ==> kid == old(kid) && log == old(log) && savedKid == old(savedKid)
    {
      r := EnsureDirectory();
      if r.Err? {
        return;
      }
      var dir := r.value;
      if Strip(savedKid) != "" {
        kid := Strip(savedKid);
      }
      if kid != "" {
        return;
      }
      if dir.newAccount == "" {
        return Err(NoNewAccount);
      }
      var posted := SignedPost(dir.newAccount);
      if posted.Ok? && contact != "" && (posted.value.code == 400 || posted.value.code == 403) {
        posted := SignedPost(dir.newAccount);
      }
      if posted.Err? {
        return Err(posted.reason);
      }
      if posted.value.code != 200 && posted.value.code != 201 {
        return Err(NewAccountFailed);
      }
      if posted.value.location == "" {
        return Err(NoAccountLocation);
      }
      kid := posted.value.location;
      savedKid := kid;
      return Ok(dir);
    }

    // Main result: against every server, an issuance leaves no challenge file it wrote (unless the
    // file system refuses to delete it), touches no other challenge file, and installs a
    // certificate exactly when it succeeds, which needs a completed order.
    method IssueOrRenew(fqdn: string, domainKey: string) returns (r: Result<string>)
      requires Valid()
      modifies this
      ensures Valid() && old(log) <= log
      ensures forall n :: n in Written(log, |old(log)|) ==> (n in webroot <==> !canUnlink(n))
      ensures forall n :: n !in Written(log, |old(log)|) ==>
        (n in webroot <==> n in old(webroot)) && (n in webroot && n in old(webroot) ==> webroot[n] == old(webroot)[n])
      ensures r.Err? ==> certs == old(certs)
      ensures r.Ok? ==> IsPem(r.value) && certs == old(certs)[Lower(Strip(fqdn)) := (r.value, domainKey)]
      ensures InstalledLast(old(log), log, r, Lower(Strip(fqdn)))
      ensures r.Ok? ==> Issued(log[..|log| - 1], |old(log)|, r.value)
      ensures AllAnswerOffers(log, |old(log)|, thumbprint)
    {
      var host := Lower(Strip(fqdn));
      if host == "" || "*." <= host {
        return Err(NoWildcards);
      }
      var tokens;
      r, tokens := OrderAndRun(host, domainKey);
      CleanUp(tokens);
    }

    // The order and its run, before the challenge files are removed.
    method OrderAndRun(host: string, domainKey: string) returns (r: Result<string>, tokens: seq<string>)
      requires Valid()
      modifies this
      ensures Valid() && old(log) <= log
      ensures GoodNames(tokens)
      ensures Written(log, |old(log)|) == Names(tokens)
      ensures WebrootFrame(old(webroot), webroot, Names(tokens))
      ensures r.Err? ==> certs == old(certs)
      ensures r.Ok? ==> IsPem(r.value) && certs == old(certs)[host := (r.value, domainKey)]
      ensures InstalledLast(old(log), log, r, host)
      ensures r.Ok? ==> Issued(log[..|log| - 1], |old(log)|, r.value)
      ensures AllAnswerOffers(log, |old(log)|, thumbprint)
    {
      tokens := [];
      var ordered := PlaceOrder();
      WrittenByPosts(old(log), log, |old(log)|);
      NoWritesAnswer(old(log), log, thumbprint);
      if ordered.Err? {
        return Err(ordered.reason), [];
      }
      ghost var middle := log;
      r, tokens := RunOrder(host, ordered.value.location, ordered.value.body.authorizations, domainKey);
      RunAfterOrder(old(log), middle, log, r, host, thumbprint, ordered.value);
    }

    // The account, then an accepted order with at least one authorization.
    method PlaceOrder() returns (r: Result<Reply>)
      requires Valid()
      modifies this`directory, this`nonce, this`replies, this`clock, this`log, this`kid, this`savedKid
      ensures Valid() && OnlyPosts(old(log), log)
      ensures r.Ok? ==> |log| > |old(log)| && log[|log| - 1].Posted? && log[|log| - 1].reply == Some(r.value)
                        && r.value.code == 201 && r.value.body.Object? && r.value.body.authorizations != []
    {
      var dir := EnsureAccount();
      if dir.Err? {
        return Err(dir.reason);
      }
      if dir.value.newOrder == "" {
        return Err(NoNewOrder);
      }
      ghost var middle := log;
      r := SignedPost(dir.value.newOrder);
      OnePostIsPosts(middle, log, dir.value.newOrder, r);
      OnlyPostsTransitive(old(log), middle, log);
      if r.Err? {
        return;
      }
      if r.value.code != 201 {
        return Err(NewOrderFailed);
      }
      if !r.value.body.Object? || r.value.location == "" {
        return Err(NoOrderLocation);
      }
      if r.value.body.authorizations == [] {
        return Err(NoAuthorizations);
      }
    }
  }

  // ----- Bookkeeping

  function Names(tokens: seq<string>): set<string> { set i | 0 <= i < |tokens| :: Strip(tokens[i]) }

  function Cleared(files: map<string, string>, names: set<string>, canUnlink: string -> bool): map<string, string> {
    map n | n in files && (n !in names || !canUnlink(n)) :: files[n]
  }

  lemma ClearedGrows(files: map<string, string>, tokens: seq<string>, i: nat, canUnlink: string -> bool)
    requires i < |tokens|
    ensures var name, some := Strip(tokens[i]), Cleared(files, Names(tokens[..i]), canUnlink);
      Cleared(files, Names(tokens[..i + 1]), canUnlink) == if canUnlink(name) then some - {name} else some
  {
    NamesGrow(tokens[..i], Some(tokens[i]));
    assert tokens[..i + 1] == tokens[..i] + [tokens[i]];
  }

  lemma NamesGrow(tokens: seq<string>, token: Option<string>)
    ensures token.Some? ==> Names(tokens + [token.value]) == Names(tokens) + {Strip(token.value)}
  {
    if token.Some? {
      var next := tokens + [token.value];
      assert forall i :: 0 <= i < |tokens| ==> next[i] == tokens[i];
      assert next[|tokens|] == token.value;
    }
  }

  lemma FrameStep(start: map<string, string>, middle: map<string, string>, end: map<string, string>, a: set<string>, b: set<string>)
    requires WebrootFrame(start, middle, a) && WebrootFrame(middle, end, b)
    ensures WebrootFrame(start, end, a + b)
  {
    forall n | n in a + b
      ensures n in end
    {
      assert n in b || (n in middle && n !in b);
    }
  }

  // One more authorization: what holds of the log so far and of the part just added holds of both together.
  lemma AuthorizedStep(start: Log, before: Log, after: Log, tokens: seq<string>, token: Option<string>,
                       authz: seq<string>, i: nat, thumbprint: string)
    requires i < |authz| && NoInstall(start, before) && NoInstall(before, after)
    requires Written(before, |start|) == Names(tokens)
    requires Written(after, |before|) == if token.Some? then {Strip(token.value)} else {}
    requires AllAnswerOffers(before, |start|, thumbprint) && Settled(before, |start|) && AllAnswerOffers(after, |before|, thumbprint)
    requires Authorized(before, |start|, |before|, authz[..i])
    ensures NoInstall(start, after) && AllAnswerOffers(after, |start|, thumbprint)
    ensures Written(after, |start|) == Names(if token.Some? then tokens + [token.value] else tokens)
    ensures Settled(after, |before|) ==> Settled(after, |start|)
    ensures SawBetween(after, |before|, |after|, authz[i], "valid") ==> Authorized(after, |start|, |after|, authz[..i + 1])
  {
    WrittenSplits(before, after, |start|);
    NoInstallTransitive(start, before, after);
    NamesGrow(tokens, token);
    AnswersExtend(before, after, |start|, thumbprint);
    SawKept(before, after, |start|, |before|, |after|, authz[..i]);
    assert authz[..i + 1] == authz[..i] + [authz[i]];
  }

  // What a run promises of its part of the log holds of the whole issuance.
  lemma RunAfterOrder(before: Log, middle: Log, after: Log, r: Result<string>, host: string, thumbprint: string, order: Reply)
    requires OnlyPosts(before, middle) && |before| < |middle| && middle[|middle| - 1].reply == Some(order)
    requires order.code == 201 && order.body.Object? && order.body.authorizations != []
    requires middle <= after && InstalledLast(middle, after, r, host) && AllAnswerOffers(after, |middle|, thumbprint)
    requires r.Ok? ==> Completed(after[..|after| - 1], |middle|, order.location, order.body.authorizations, r.value)
    ensures Written(after, |before|) == Written(after, |middle|)
    ensures AllAnswerOffers(after, |before|, thumbprint) && InstalledLast(before, after, r, host)
    ensures r.Ok? ==> Issued(after[..|after| - 1], |before|, r.value)
  {
    WrittenByPosts(before, middle, |before|);
    WrittenSplits(middle, after, |before|);
    assert Written(before, |before|) == {};
    NoWritesAnswer(before, middle, thumbprint);
    AnswersExtend(middle, after, |before|, thumbprint);
    InstalledAfterPosts(before, middle, after, r, host);
    if r.Ok? {
      OrderIsIssued(before, middle, after[..|after| - 1], r.value);
    }
  }

  // A run that completed right after its accepted order.
  lemma OrderIsIssued(before: Log, middle: Log, after: Log, fullchain: string)
    requires |before| < |middle| && middle <= after && middle[|middle| - 1].Posted? && middle[|middle| - 1].reply.Some?
    requires var reply := middle[|middle| - 1].reply.value;
      reply.code == 201 && reply.body.Object? && reply.body.authorizations != []
      && Completed(after, |middle|, reply.location, reply.body.authorizations, fullchain)
    ensures Issued(after, |before|, fullchain)
  {
    assert after[|middle| - 1] == middle[|middle| - 1];
    assert IssuedFrom(after, |middle| - 1, fullchain);
  }

  lemma InstalledAfterPosts(before: Log, middle: Log, after: Log, r: Result<string>, host: string)
    requires NoInstall(before, middle) && InstalledLast(middle, after, r, host)
    ensures InstalledLast(before, after, r, host)
  {
    NoInstallTransitive(before, middle, if r.Ok? then after[..|after| - 1] else after);
  }

  lemma WrittenSplits(before: Log, after: Log, from: nat)
    requires before <= after && from <= |before|
    ensures Written(after, from) == Written(before, from) + Written(after, |before|)
  {
    assert forall i :: 0 <= i < |before| ==> after[i] == before[i];
  }

  lemma SawKept(before: Log, after: Log, from: nat, m: nat, to: nat, authz: seq<string>)
    requires before <= after && m <= to && Authorized(before, from, m, authz)
    ensures Authorized(after, from, to, authz)
  {
    forall k | 0 <= k < |authz|
      ensures SawBetween(after, from, to, authz[k], "valid")
    {
      var i :| from <= i < m && i < |before| && Saw(before[i], authz[k], "valid");
      assert Saw(after[i], authz[k], "valid");
    }
  }

  // ----- When a nonce is never sent twice

  function Posts(log: Log): (posts: seq<Event>)
    ensures forall k :: 0 <= k < |posts| ==> posts[k].Posted?
  {
    if log == [] then []
    else
      var last := log[|log| - 1];
      Posts(log[..|log| - 1]) + if last.Posted? then [last] else []
  }

  // The nonce left behind by one request.
  function NextNonce(e: Event): string
    requires e.Posted?
  {
    if e.reply.Some? && e.reply.value.nonce != "" then e.reply.value.nonce else e.nonce
  }

  lemma {:induction false} PostsAreChained(log: Log, first: string)
    requires NonceChain(log, first)
    ensures var posts := Posts(log);
      && (forall i :: 1 <= i < |posts| ==> posts[i].nonce == NextNonce(posts[i - 1]))
      && NonceAfter(log, first) == if posts == [] then first else NextNonce(posts[|posts| - 1])
  {
    if log != [] {
      PostsAreChained(log[..|log| - 1], first);
    }
  }

  // The reply to request i brings a nonce that no request up to i has used.
  ghost predicate FreshReply(posts: seq<Event>, i: nat)
    requires i < |posts| && forall k :: 0 <= k < |posts| ==> posts[k].Posted?
  {
    && posts[i].reply.Some? && posts[i].reply.value.nonce != ""
    && forall k :: 0 <= k <= i ==> posts[k].nonce != posts[i].reply.value.nonce
  }

  // The nonce of a request, once for the request and once for every time its body is sent again.
  function Copies(nonce: string, n: nat): seq<string> { seq(n, _ => nonce) }

  function Sends(posts: seq<Event>): seq<string>
    requires forall k :: 0 <= k < |posts| ==> posts[k].Posted?
  {
    if posts == [] then []
    else
      var last := posts[|posts| - 1];
      Sends(posts[..|posts| - 1]) + Copies(last.nonce, 1 + |last.again|)
  }

  ghost predicate Distinct(s: seq<string>) { forall i, j :: 0 <= i < j < |s| ==> s[i] != s[j] }

  lemma {:induction false} PlainSends(posts: seq<Event>)
    requires forall k :: 0 <= k < |posts| ==> posts[k].Posted? && posts[k].again == []
    ensures |Sends(posts)| == |posts| && forall k :: 0 <= k < |posts| ==> Sends(posts)[k] == posts[k].nonce
  {
    if posts != [] {
      PlainSends(posts[..|posts| - 1]);
    }
  }

  lemma {:induction false} ResentRepeats(posts: seq<Event>, i: nat)
    requires forall k :: 0 <= k < |posts| ==> posts[k].Posted?
    requires i < |posts| && posts[i].again != []
    ensures !Distinct(Sends(posts))
  {
    var n := |posts| - 1;
    var front, sends := Sends(posts[..n]), Sends(posts);
    if i == n {
      assert sends[|front|] == sends[|front| + 1];
    } else {
      ResentRepeats(posts[..n], i);
      var a, b :| 0 <= a < b < |front| && front[a] == front[b];
      assert sends[a] == sends[b];
    }
  }

  lemma ChainedDistinct(posts: seq<Event>)
    requires forall k :: 0 <= k < |posts| ==> posts[k].Posted?
    requires forall i :: 1 <= i < |posts| ==> posts[i].nonce == NextNonce(posts[i - 1])
    ensures (forall i, j :: 0 <= i < j < |posts| ==> posts[i].nonce != posts[j].nonce)
       <==> forall i :: 0 <= i < |posts| - 1 ==> FreshReply(posts, i)
  {
    forall i | 0 <= i < |posts| - 1 && forall k, j :: 0 <= k < j < |posts| ==> posts[k].nonce != posts[j].nonce
      ensures FreshReply(posts, i)
    {
      assert posts[i + 1].nonce == NextNonce(posts[i]);
      assert posts[i].nonce != posts[i + 1].nonce;
    }
    forall i, j | 0 <= i < j < |posts| && forall k :: 0 <= k < |posts| - 1 ==> FreshReply(posts, k)
      ensures posts[i].nonce != posts[j].nonce
    {
      assert FreshReply(posts, j - 1);
      assert posts[j].nonce == NextNonce(posts[j - 1]);
    }
  }

  // Main result: over any number of issuances of one client, no nonce is sent twice exactly when no request
  // is redirected with its method kept and every reply that is followed by another request carries a fresh nonce.
  lemma NonceNeverReused(log: Log, first: string)
    requires NonceChain(log, first)
    ensures var posts := Posts(log);
      Distinct(Sends(posts))
      <==> && (forall i :: 0 <= i < |posts| ==> posts[i].again == [])
           && (forall i :: 0 <= i < |posts| - 1 ==> FreshReply(posts, i))
  {
    PostsAreChained(log, first);
    var posts := Posts(log);
    if i :| 0 <= i < |posts| && posts[i].again != [] {
      ResentRepeats(posts, i);
    } else {
      PlainSends(posts);
      ChainedDistinct(posts);
    }
  }

  lemma PostLast(log: Log, e: Event)
    requires e.Posted?
    ensures Posts(log + [e]) == Posts(log) + [e]
    ensures Sends(Posts(log) + [e]) == Sends(Posts(log)) + Copies(e.nonce, 1 + |e.again|)
  {
    assert (log + [e])[..|log|] == log;
    assert (Posts(log) + [e])[..|Posts(log)|] == Posts(log);
  }

  // A server that redirects a request with a 307 sees its nonce twice, although the reply carries a fresh one.
  lemma RedirectReusesNonce()
    ensures var log := [Posted("u", "n0", Resent([Hop(307, "v")]), Some(Reply(200, "n1", "", NotJson, "", 0, 0)))];
      NonceChain(log, "n0") && Sends(Posts(log)) == ["n0", "n0"]
  {
    var hops := [Hop(307, "v")];
    assert hops[1..] == [] && Resent(hops) == ["v"];
    var e := Posted("u", "n0", Resent(hops), Some(Reply(200, "n1", "", NotJson, "", 0, 0)));
    ChainGrows([], e, "n0");
    PostLast([], e);
    assert [] + [e] == [e];
  }

  // A server that answers without a nonce sees the old one again in the next request.
  lemma SilentReplyReusesNonce()
    ensures var e := Posted("u", "n0", [], Some(Reply(200, "", "", NotJson, "", 0, 0)));
      NonceChain([e, e], "n0") && Sends(Posts([e, e])) == ["n0", "n0"]
  {
    var e := Posted("u", "n0", [], Some(Reply(200, "", "", NotJson, "", 0, 0)));
    ChainGrows([], e, "n0");
    PostLast([], e);
    assert [] + [e] == [e] && [e] + [e] == [e, e];
    assert [e][..0] == [] && NonceAfter([e], "n0") == "n0";
    ChainGrows([e], e, "n0");
    PostLast([e], e);
  }
}
