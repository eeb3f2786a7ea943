/** forward and tryEntry of internal/gateway/forward.go: pick an account, take a slot, send,
    retry on lack of capacity, switch accounts, answer once, record once.
    What the outside does is an arbitrary script: the reply to the n-th attempt, the outcome of
    the n-th wait, pick and slot request. */
module Forward {
  import opened Options
  import opened SseBatch

  const UNAUTHORIZED := 401
  const CLIENT_GONE := 499
  const BAD_GATEWAY := 502
  const UNAVAILABLE := 503

  /** The outcome of one attempt: the request cannot be signed; it cannot be sent, with the client
      gone or not; or there is a response, which may carry the capacity marker. */
  datatype Reply =
    | SignError
    | TransportError(clientGone: bool)
    | Response(status: int, marker: bool, usage: Usage)

  predicate IsSuccess(status: int) { 200 <= status < 300 }

  predicate LacksCapacity(r: Reply) {
    r.Response? && r.status == UNAVAILABLE && r.marker
  }

  datatype Error =
    | NoError
    | NoAccount
    | UnauthorizedTwice
    | ClientDisconnected
    | ClientDisconnectedWaiting
    | UpstreamTransport
    | CapacityExhausted
    | StatusText(status: int)

  /** The usage log of one request. */
  datatype Log = Log(account: string, status: int, err: Error, usage: Usage)

  const EMPTY_LOG := Log("", 0, NoError, NO_USAGE)

  datatype Report = Success(account: string) | Failure(account: string, status: Option<int>)

  datatype Action = Responded | SwitchAccount

  datatype Attempt = Attempt(action: Action, unauthorized: bool, transportErr: bool, capacityTries: nat, status: int)

  /** A turn of forward: the account that was picked, and the number of attempts made before it. */
  datatype Visit = Visit(account: string, first: nat)

  /** What has happened to a request so far. */
  datatype Past = Past(visits: seq<Visit>, sent: seq<string>, waited: nat, asked: nat, reports: seq<Report>, log: Log)

  function Repeat(account: string, n: nat): seq<string> { seq(n, _ => account) }

  function Max0(n: int): nat { if n > 0 then n else 0 }

  class Request {
    // the environment
    const accounts: set<string>
    const capacityRetries: int
    const replies: nat -> Reply
    const waits: nat -> bool
    const picks: nat -> Option<string>
    const free: nat -> bool

    // what happened so far
    var sent: seq<string>            // the account of every attempt
    var waited: nat
    var picked: nat
    var asked: nat
    var slots: map<string, int>      // slots of this request per account
    var responses: seq<int>          // status of every response written to the client
    var reports: seq<Report>         // reports to the pool
    var records: seq<Log>            // logs given to billing
    var log: Log
    ghost var gone: bool             // the client was seen to be gone
    ghost var visits: seq<Visit>

    constructor (accounts: set<string>, capacityRetries: int, replies: nat -> Reply, waits: nat -> bool,
                 picks: nat -> Option<string>, free: nat -> bool)
      ensures this.accounts == accounts && this.capacityRetries == capacityRetries
      ensures this.replies == replies && this.waits == waits && this.picks == picks && this.free == free
      ensures Fresh()
    {
      this.accounts, this.capacityRetries := accounts, capacityRetries;
      this.replies, this.waits, this.picks, this.free := replies, waits, picks, free;
      sent, waited, picked, asked := [], 0, 0, 0;
      slots := (map a | a in accounts :: 0);
      responses, reports, records, log, gone, visits := [], [], [], EMPTY_LOG, false, [];
    }

    ghost predicate Fresh()
      reads this
    {
      && sent == [] && visits == [] && picked == 0 && asked == 0 && slots == (map a | a in accounts :: 0)
      && responses == [] && reports == [] && records == [] && log == EMPTY_LOG && !gone
    }

    /** The most attempts on one account. */
    function PerAccount(): nat { Max0(capacityRetries) + 1 }

    // ---- the outside ----

    /** What the k-th pick gives: some account of the pool that is not excluded, or none. */
    function Offer(k: nat, exclude: set<string>): Option<string> {
      var account := picks(k);
      if account.Some? && account.value in accounts && account.value !in exclude then account else None
    }

    /** Pool.Pick */
    method Pick(exclude: set<string>) returns (account: Option<string>)
      modifies this`picked
      ensures account == Offer(old(picked), exclude) && picked == old(picked) + 1
    {
      account := picks(picked);
      picked := picked + 1;
      if account.Some? && (account.value !in accounts || account.value in exclude) {
        account := None;
      }
    }

    /** Entry.TryAcquire */
    method TryAcquire(account: string) returns (ok: bool)
      requires account in slots
      modifies this`asked, this`slots
      ensures ok == free(old(asked)) && asked == old(asked) + 1
      ensures slots == if ok then old(slots)[account := old(slots)[account] + 1] else old(slots)
    {
      ok := free(asked);
      asked := asked + 1;
      if ok {
        slots := slots[account := slots[account] + 1];
      }
    }

    /** SignedRequest and Do. */
    method Send(account: string) returns (reply: Reply)
      modifies this`sent
      ensures sent == old(sent) + [account] && reply == replies(|old(sent)|)
    {
      reply := replies(|sent|);
      sent := sent + [account];
    }

    // ---- one account ----

    /** The loop of tryEntry: send again while capacity is lacking and retries are left.
        Returns the last reply, and whether the wait after it was cut short. */
    method SendWithRetries(account: string) returns (last: Reply, tries: nat, cut: bool)
      modifies this`sent, this`waited
      ensures 0 < |sent| - |old(sent)| <= PerAccount()
      ensures sent == old(sent) + Repeat(account, |sent| - |old(sent)|)
      ensures last == replies(|sent| - 1)
      ensures forall i: nat | |old(sent)| <= i < |sent| - 1 :: LacksCapacity(replies(i))
      ensures tries == |sent| - |old(sent)| - if cut then 0 else 1
      ensures cut ==> LacksCapacity(last)
      ensures cut ==> 0 < waited && !waits(waited - 1)
      ensures LacksCapacity(last) && !cut ==> |sent| - |old(sent)| == PerAccount()
    {
      var attempt := 0;
      tries := 0;
      while true
        invariant 0 <= attempt == tries <= Max0(capacityRetries)
        invariant sent == old(sent) + Repeat(account, attempt)
        invariant forall i: nat | |old(sent)| <= i < |sent| :: LacksCapacity(replies(i))
        decreases Max0(capacityRetries) - attempt
      {
        last := Send(account);
        if LacksCapacity(last) && attempt < capacityRetries {
          tries := tries + 1;
          var slept := waits(waited);
          waited := waited + 1;
          if !slept {
            cut := true;
            return;
          }
          attempt := attempt + 1;
          continue;
        }
        cut := false;
        return;
      }
    }

    /** tryEntry without the deferred release. */
    method Try(account: string) returns (res: Attempt, ghost last: Reply, ghost cut: bool)
      requires !gone
      modifies this`sent, this`waited, this`responses, this`reports, this`log, this`gone
      ensures 0 < |sent| - |old(sent)| <= PerAccount()
      ensures sent == old(sent) + Repeat(account, |sent| - |old(sent)|)
      ensures last == replies(|sent| - 1)
      ensures forall i: nat | |old(sent)| <= i < |sent| - 1 :: LacksCapacity(replies(i))
      ensures res.capacityTries == |sent| - |old(sent)| - if cut then 0 else 1
      ensures cut ==> 0 < waited && !waits(waited - 1)
      ensures LacksCapacity(last) && !cut ==> |sent| - |old(sent)| == PerAccount()
      ensures log.account == account && Outcome(account, last, cut, old(log), log, res)
      ensures responses == old(responses) + if res.action == Responded && !gone then [log.status] else []
      ensures gone == (cut || (last.TransportError? && last.clientGone))
      ensures reports == old(reports) + ReportsOf(account, last, cut)
    {
      log := log.(account := account);
      var reply, tries, interrupted := SendWithRetries(account);
      last, cut := reply, interrupted;
      match reply
      case SignError =>
        reports := reports + [Failure(account, None)];
        res := Attempt(SwitchAccount, false, true, tries, 0);
      case TransportError(clientGone) =>
        if clientGone {
          log := log.(status := CLIENT_GONE, err := ClientDisconnected);
          gone := true;
          res := Attempt(Responded, false, false, tries, 0);
        } else {
          reports := reports + [Failure(account, None)];
          log := log.(err := UpstreamTransport);
          res := Attempt(SwitchAccount, false, true, tries, 0);
        }
      case Response(status, marker, usage) =>
        if interrupted {
          log := log.(status := CLIENT_GONE, err := ClientDisconnectedWaiting);
          gone := true;
          res := Attempt(Responded, false, false, tries, 0);
        } else if status == UNAUTHORIZED {
          res := Attempt(SwitchAccount, true, false, tries, status);
        } else if IsSuccess(status) {
          reports := reports + [Success(account)];
          log := log.(status := status);
          responses := responses + [status];
          log := log.(usage := usage);
          res := Attempt(Responded, false, false, tries, 0);
        } else {
          var capacityExhausted := status == UNAVAILABLE && marker;
          if !capacityExhausted {
            reports := reports + [Failure(account, Some(status))];
          }
          log := log.(status := status, err := if capacityExhausted then CapacityExhausted else StatusText(status));
          responses := responses + [status];
          res := Attempt(Responded, false, false, tries, 0);
        }
    }

    /** tryEntry: the slot the caller took is given back on every path. */
    method TryEntry(account: string) returns (res: Attempt, ghost last: Reply, ghost cut: bool)
      requires account in slots && !gone
      modifies this`sent, this`waited, this`responses, this`reports, this`log, this`gone, this`slots
      ensures 0 < |sent| - |old(sent)| <= PerAccount()
      ensures sent == old(sent) + Repeat(account, |sent| - |old(sent)|)
      ensures last == replies(|sent| - 1)
      ensures forall i: nat | |old(sent)| <= i < |sent| - 1 :: LacksCapacity(replies(i))
      ensures cut ==> 0 < waited && !waits(waited - 1)
      ensures LacksCapacity(last) && !cut ==> |sent| - |old(sent)| == PerAccount()
      ensures log.account == account && Outcome(account, last, cut, old(log), log, res)
      ensures responses == old(responses) + if res.action == Responded && !gone then [log.status] else []
      ensures gone == (cut || (last.TransportError? && last.clientGone))
      ensures reports == old(reports) + ReportsOf(account, last, cut)
      ensures slots == old(slots)[account := old(slots)[account] - 1]
    {
      res, last, cut := Try(account);
      slots := slots[account := slots[account] - 1];
    }

    // ---- the whole request ----

    /** How many of the first `n` replies were 401. */
    function Unauthorized(n: nat): nat {
      if n == 0 then 0 else Unauthorized(n - 1) + if IsUnauthorized(replies(n - 1)) then 1 else 0
    }

    /** Was one of the first `n` requests lost on the way, with the client still there? */
    predicate SawTransportError(n: nat) {
      exists i: nat | i < n :: replies(i) == TransportError(false)
    }

    /** The same, or could one not be signed? */
    predicate SawLocalError(n: nat) {
      exists i: nat | i < n :: replies(i) == TransportError(false) || replies(i).SignError?
    }

    /** The attempts on one account add what its last reply adds. */
    lemma {:induction false} OnlyLastReplyCounts(n: nat, m: nat)
      requires n < m && forall i: nat | n <= i < m - 1 :: LacksCapacity(replies(i))
      ensures Unauthorized(m) == Unauthorized(n) + if IsUnauthorized(replies(m - 1)) then 1 else 0
      ensures SawTransportError(m) <==> SawTransportError(n) || replies(m - 1) == TransportError(false)
      ensures SawLocalError(m) <==>
        SawLocalError(n) || replies(m - 1) == TransportError(false) || replies(m - 1).SignError?
    {
      if n + 1 < m {
        OnlyLastReplyCounts(n, m - 1);
      }
    }

    /** The attempts so far are within what the excluded accounts allow. */
    ghost predicate Budget(attempts: seq<string>, exclude: set<string>) {
      && exclude <= accounts
      && |attempts| + |accounts - exclude| * PerAccount() <= |accounts| * PerAccount()
      && Allowance(attempts, exclude)
    }

    /** Only `tried` accounts were tried, each so many times at most. */
    ghost predicate Allowance(attempts: seq<string>, tried: set<string>) {
      forall a :: multiset(attempts)[a] <= if a in tried then PerAccount() else 0
    }

    /** The account of the last attempt. */
    function LastTried(attempts: seq<string>): string {
      if attempts == [] then "" else attempts[|attempts| - 1]
    }

    /** The attempts of the whole request. */
    ghost predicate Bounded(attempts: seq<string>) {
      && |attempts| <= |accounts| * PerAccount()
      && Allowance(attempts, accounts)
    }

    ghost predicate HoldsNoSlot(slots: map<string, int>) {
      slots.Keys == accounts && forall a | a in slots :: slots[a] == 0
    }

    /** What the first `n` replies, none of which was passed on, have left behind. */
    ghost predicate Searching(log: Log, n: nat, retried401: bool, sawTransportErr: bool) {
      && log.status == 0 && log.usage == NO_USAGE
      && Unauthorized(n) == (if retried401 then 1 else 0)
      && log.err == (if SawTransportError(n) then UpstreamTransport else NoError)
      && (sawTransportErr <==> SawLocalError(n))
    }

    /** The final log after `n` replies. */
    ghost predicate Concluded(log: Log, gone: bool, n: nat) {
      && (gone ==>
            0 < n && log.status == CLIENT_GONE && log.usage == NO_USAGE
            && log.err == if replies(n - 1).TransportError? then ClientDisconnected else ClientDisconnectedWaiting)
      && Unauthorized(n) <= 2
      && (log.err == UnauthorizedTwice <==> Unauthorized(n) == 2)
      && (log.err == NoAccount ==> log.status == if SawLocalError(n) then BAD_GATEWAY else UNAVAILABLE)
      && (log.err != NoAccount && !gone ==> 0 < n && TellsLastReply(log, n))
      && (log.usage != NO_USAGE ==> IsSuccess(log.status))
    }

    /** The log is that of the last reply. An error text left by an earlier lost request survives a success. */
    ghost predicate TellsLastReply(log: Log, n: nat)
      requires 0 < n
    {
      var last := replies(n - 1);
      && last.Response? && log.status == last.status
      && log.usage == (if IsSuccess(last.status) then last.usage else NO_USAGE)
      && log.err ==
         if IsSuccess(last.status) then (if SawTransportError(n) then UpstreamTransport else NoError)
         else if LacksCapacity(last) then CapacityExhausted
         else if last.status == UNAUTHORIZED then UnauthorizedTwice
         else StatusText(last.status)
    }

    /** The reports that the replies to these attempts call for, in order. */
    function History(attempts: seq<string>): seq<Report> {
      if attempts == [] then []
      else
        var n := |attempts| - 1;
        History(attempts[..n]) + ReportsOf(attempts[n], replies(n), false)
    }

    /** No account is reported twice, and only those tried are. */
    ghost predicate OncePerAccount(reports: seq<Report>, tried: set<string>) {
      && (forall i | 0 <= i < |reports| :: reports[i].account in tried)
      && (forall i, j | 0 <= i < j < |reports| :: reports[i].account != reports[j].account)
    }

    /** Reports while the search goes on: accounts that could not sign or send. */
    ghost predicate ReportedSoFar(reports: seq<Report>, attempts: seq<string>, tried: set<string>) {
      && reports == History(attempts) && OncePerAccount(reports, tried)
      && forall i | 0 <= i < |reports| :: reports[i].Failure? && reports[i].status == None
    }

    /** What is reported with the answer: a success with a 2xx, a failure with any other reply passed on, save lack of
        capacity and a second 401; nothing when the client is gone or no account is left. */
    function Verdict(log: Log, gone: bool): seq<Report> {
      if gone || log.err in {NoAccount, UnauthorizedTwice, CapacityExhausted} then []
      else if IsSuccess(log.status) then [Success(log.account)]
      else [Failure(log.account, Some(log.status))]
    }

    /** All reports of the request: those of the search, then the verdict. */
    ghost predicate Reported(reports: seq<Report>, attempts: seq<string>, log: Log, gone: bool) {
      && reports == History(attempts) && OncePerAccount(reports, accounts)
      && var k := |reports| - |Verdict(log, gone)|;
         k >= 0 && reports[k..] == Verdict(log, gone)
         && forall i | 0 <= i < k :: reports[i].Failure? && reports[i].status == None
    }

    lemma HistoryAppend(attempts: seq<string>, account: string)
      ensures History(attempts + [account]) == History(attempts) + ReportsOf(account, replies(|attempts|), false)
    {
      assert (attempts + [account])[..|attempts|] == attempts;
    }

    /** Retried replies are not reported. */
    lemma {:induction false} HistoryOfRetries(before: seq<string>, account: string, k: nat, last: Reply, cut: bool)
      requires k > 0 && last == replies(|before| + k - 1) && (cut ==> LacksCapacity(last))
      requires forall i: nat | |before| <= i < |before| + k - 1 :: LacksCapacity(replies(i))
      ensures History(before + Repeat(account, k)) == History(before) + ReportsOf(account, last, cut)
    {
      hide History, Repeat;
      RepeatMore(account, k - 1);
      CutIsNotReported(account, last, cut);
      if k == 1 {
        assert before + (Repeat(account, 0) + [account]) == before + [account];
        HistoryAppend(before, account);
      } else {
        var previous := replies(|before| + k - 2);
        HistoryOfRetries(before, account, k - 1, previous, false);
        CutIsNotReported(account, previous, true);
        assert before + Repeat(account, k) == before + Repeat(account, k - 1) + [account];
        HistoryAppend(before + Repeat(account, k - 1), account);
        assert History(before) + [] == History(before);
      }
    }

    /** How the attempts on one account take the reports further. */
    lemma ReportsGoOn(before: seq<string>, after: seq<string>, exclude: set<string>, account: string,
                      last: Reply, cut: bool, was: Log, log: Log, res: Attempt, reports: seq<Report>, more: seq<Report>)
      requires ReportedSoFar(reports, before, exclude) && exclude <= accounts
      requires account in accounts && account !in exclude && was.err in {NoError, UpstreamTransport}
      requires |before| < |after| && after == before + Repeat(account, |after| - |before|)
      requires last == replies(|after| - 1)
      requires forall i: nat | |before| <= i < |after| - 1 :: LacksCapacity(replies(i))
      requires Outcome(account, last, cut, was, log, res) && more == reports + ReportsOf(account, last, cut)
      ensures res.action == Responded ==> Reported(more, after, log, cut || (last.TransportError? && last.clientGone))
      ensures res.action == SwitchAccount ==> ReportedSoFar(more, after, exclude + {account})
      ensures res.unauthorized ==> Reported(more, after, log.(status := res.status, err := UnauthorizedTwice), false)
    {
      hide *;
      var r := ReportsOf(account, last, cut);
      CutMeansCapacity(account, last, cut, was, log, res);
      HistoryOfRetries(before, account, |after| - |before|, last, cut);
      OutcomeReports(account, last, cut, was, log, res);
      if res.action == Responded {
        var clientGone := cut || (last.TransportError? && last.clientGone);
        ReportVerdict(reports, before, after, exclude, account, r, log, clientGone);
      } else {
        ReportLocal(reports, before, after, exclude, account, r);
      }
      if res.unauthorized {
        var passedOn := log.(status := res.status, err := UnauthorizedTwice);
        ReportVerdict(reports, before, after, exclude, account, r, passedOn, false);
      }
    }

    lemma CutMeansCapacity(account: string, last: Reply, cut: bool, was: Log, log: Log, res: Attempt)
      requires Outcome(account, last, cut, was, log, res)
      ensures cut ==> LacksCapacity(last)
    {
    }

    /** What one account's outcome adds to the reports. */
    lemma OutcomeReports(account: string, last: Reply, cut: bool, was: Log, log: Log, res: Attempt)
      requires Outcome(account, last, cut, was, log, res) && was.err in {NoError, UpstreamTransport}
      ensures var r := ReportsOf(account, last, cut);
              && (r == [] || (|r| == 1 && r[0].account == account))
              && (res.action == Responded ==> r == Verdict(log, cut || (last.TransportError? && last.clientGone)))
              && (res.action == SwitchAccount ==> r == [] || r == [Failure(account, None)])
              && (res.unauthorized ==> r == Verdict(log.(status := res.status, err := UnauthorizedTwice), false))
    {
    }

    lemma ReportOnce(reports: seq<Report>, exclude: set<string>, account: string, r: seq<Report>, tried: set<string>)
      requires OncePerAccount(reports, exclude) && account !in exclude && exclude + {account} <= tried
      requires r == [] || (|r| == 1 && r[0].account == account)
      ensures OncePerAccount(reports + r, tried)
    {
    }

    lemma ReportVerdict(reports: seq<Report>, before: seq<string>, after: seq<string>, exclude: set<string>,
                        account: string, r: seq<Report>, log: Log, gone: bool)
      requires ReportedSoFar(reports, before, exclude) && exclude <= accounts && account in accounts - exclude
      requires r == [] || (|r| == 1 && r[0].account == account)
      requires r == Verdict(log, gone) && History(after) == History(before) + r
      ensures Reported(reports + r, after, log, gone)
    {
      hide History, OncePerAccount, Verdict;
      ReportOnce(reports, exclude, account, r, accounts);
    }

    lemma ReportLocal(reports: seq<Report>, before: seq<string>, after: seq<string>, exclude: set<string>,
                      account: string, r: seq<Report>)
      requires ReportedSoFar(reports, before, exclude) && account !in exclude
      requires r == [] || r == [Failure(account, None)]
      requires History(after) == History(before) + r
      ensures ReportedSoFar(reports + r, after, exclude + {account})
    {
      hide History, OncePerAccount;
      ReportOnce(reports, exclude, account, r, exclude + {account});
    }

    lemma MoreTried(reports: seq<Report>, attempts: seq<string>, exclude: set<string>, account: string)
      requires ReportedSoFar(reports, attempts, exclude)
      ensures ReportedSoFar(reports, attempts, exclude + {account})
    {
      hide History;
    }

    // ---- the trail of accounts ----

    function Visited(visits: seq<Visit>): set<string> { set v | v in visits :: v.account }

    /** The attempts from `first` on are those on one account: again while capacity is lacking, until something else
        comes, the retries are used up, or the client is gone. */
    predicate Tries(attempts: seq<string>, first: nat, account: string, gone: bool) {
      && first < |attempts| <= first + PerAccount()
      && attempts == attempts[..first] + Repeat(account, |attempts| - first)
      && (forall i: nat | first <= i < |attempts| - 1 :: LacksCapacity(replies(i)))
      && (LacksCapacity(replies(|attempts| - 1)) && !gone ==> |attempts| == first + PerAccount())
    }

    /** The k-th pick gave the account of the k-th visit, all accounts visited before being excluded. */
    predicate Chosen(visits: seq<Visit>, attempts: seq<string>)
      requires visits != []
    {
      var n := |visits| - 1;
      visits[n].first <= |attempts| && Offer(n, Visited(visits[..n])) == Some(visits[n].account)
    }

    /** Every visit so far was to the account picked then, and was left for the next one: it had no free slot, or it was
        tried, and its last reply was a 401 or a lost or unsigned request. */
    predicate Trail(visits: seq<Visit>, attempts: seq<string>)
      decreases |visits|
    {
      if visits == [] then attempts == []
      else
        var n := |visits| - 1;
        var v := visits[n];
        && Chosen(visits, attempts) && Trail(visits[..n], attempts[..v.first])
        && if free(n) then Tries(attempts, v.first, v.account, false) && MovesOn(replies(|attempts| - 1))
           else v.first == |attempts|
    }

    /** The last visit, after such a trail, is the one that ended the search; when the client is gone, it left during
        the last attempt or during the wait after it. */
    predicate Ends(visits: seq<Visit>, attempts: seq<string>, waited: nat, gone: bool) {
      && visits != [] && Chosen(visits, attempts)
      && var n := |visits| - 1;
         && Trail(visits[..n], attempts[..visits[n].first])
         && free(n) && Tries(attempts, visits[n].first, visits[n].account, gone)
         && (gone ==>
               || replies(|attempts| - 1) == TransportError(true)
               || (LacksCapacity(replies(|attempts| - 1)) && 0 < waited && !waits(waited - 1)))
    }

    ghost predicate OnTrail(p: Past, exclude: set<string>) {
      Trail(p.visits, p.sent) && p.asked == |p.visits| && Visited(p.visits) == exclude
    }

    /** The gateway gives up only when Pick has no account left, every visited one being excluded; any other answer is
        that of the last account visited. */
    predicate EndsTrail(p: Past, gone: bool) {
      if p.log.err == NoAccount then
        !gone && Trail(p.visits, p.sent) && Offer(|p.visits|, Visited(p.visits)) == None
      else Ends(p.visits, p.sent, p.waited, gone)
    }

    lemma VisitedMore(visits: seq<Visit>, v: Visit)
      ensures (visits + [v])[..|visits|] == visits
      ensures Visited(visits + [v]) == Visited(visits) + {v.account}
    {
      assert (visits + [v])[..|visits|] == visits;
      assert forall x :: x in visits + [v] <==> x in visits || x == v;
      forall a ensures a in Visited(visits + [v]) <==> a in Visited(visits) || a == v.account {
        if a in Visited(visits) {
          var x :| x in visits && x.account == a;
          assert x in visits + [v];
        }
        assert v in visits + [v];
      }
    }

    /** A visit to an account without a free slot. */
    lemma TrailRefused(p: Past, exclude: set<string>, account: string)
      requires OnTrail(p, exclude) && Offer(|p.visits|, exclude) == Some(account) && !free(p.asked)
      ensures OnTrail(p.(visits := p.visits + [Visit(account, |p.sent|)], asked := p.asked + 1), exclude + {account})
    {
      hide Offer, Visited, Tries, MovesOn;
      VisitedMore(p.visits, Visit(account, |p.sent|));
      assert p.sent[..|p.sent|] == p.sent;
    }

    /** A visit to an account that is tried. */
    lemma TrailTried(p: Past, q: Past, exclude: set<string>, account: string, gone: bool)
      requires OnTrail(p, exclude) && Offer(|p.visits|, exclude) == Some(account) && free(p.asked)
      requires q.visits == p.visits + [Visit(account, |p.sent|)] && q.asked == p.asked + 1
      requires |p.sent| <= |q.sent| && q.sent[..|p.sent|] == p.sent && Tries(q.sent, |p.sent|, account, gone)
      ensures !gone && MovesOn(replies(|q.sent| - 1)) ==> OnTrail(q, exclude + {account})
      ensures gone ==>
        || replies(|q.sent| - 1) == TransportError(true)
        || (LacksCapacity(replies(|q.sent| - 1)) && 0 < q.waited && !waits(q.waited - 1))
        ==> Ends(q.visits, q.sent, q.waited, gone)
      ensures !gone ==> Ends(q.visits, q.sent, q.waited, gone)
    {
      hide Offer, Visited, Tries, MovesOn;
      VisitedMore(p.visits, Visit(account, |p.sent|));
    }

    /** What holds whenever forward is about to pick, having excluded `exclude`. */
    ghost predicate Sought(p: Past, exclude: set<string>, retried401: bool, sawTransportErr: bool) {
      && p.log.account == LastTried(p.sent)
      && Budget(p.sent, exclude) && Searching(p.log, |p.sent|, retried401, sawTransportErr)
      && ReportedSoFar(p.reports, p.sent, exclude) && OnTrail(p, exclude)
    }

    /** What holds in the end. */
    ghost predicate Settled(p: Past, gone: bool) {
      && p.log.account == LastTried(p.sent)
      && Bounded(p.sent) && Concluded(p.log, gone, |p.sent|)
      && Reported(p.reports, p.sent, p.log, gone) && EndsTrail(p, gone)
    }

    ghost function Now(): Past
      reads this`visits, this`sent, this`waited, this`asked, this`reports, this`log
    {
      Past(visits, sent, waited, asked, reports, log)
    }

    ghost predicate Looking(exclude: set<string>, retried401: bool, sawTransportErr: bool)
      reads this
    {
      && HoldsNoSlot(slots) && responses == [] && !gone
      && Sought(Now(), exclude, retried401, sawTransportErr)
    }

    /** The answer to the client, given once: nothing when the client is gone. */
    ghost predicate Answered()
      reads this
    {
      HoldsNoSlot(slots) && responses == (if gone then [] else [log.status]) && Settled(Now(), gone)
    }

    /** How one call of tryEntry, making attempts `n` to `m`, takes the search further or ends it. */
    lemma AfterAttempts(n: nat, m: nat, account: string, last: Reply, cut: bool, before: Log, after: Log, res: Attempt,
                        retried401: bool, sawTransportErr: bool)
      requires Searching(before, n, retried401, sawTransportErr)
      requires n < m && last == replies(m - 1) && forall i: nat | n <= i < m - 1 :: LacksCapacity(replies(i))
      requires Outcome(account, last, cut, before, after, res)
      ensures res.action == Responded ==> Concluded(after, cut || (last.TransportError? && last.clientGone), m)
      ensures res.unauthorized ==> res.action == SwitchAccount && !cut && !last.TransportError?
      ensures res.unauthorized && retried401 ==>
        Concluded(after.(status := res.status, err := UnauthorizedTwice), false, m)
      ensures res.action == SwitchAccount && !(res.unauthorized && retried401) ==>
        !cut && last != TransportError(true) &&
        Searching(after, m, retried401 || res.unauthorized, sawTransportErr || res.transportErr)
    {
      OnlyLastReplyCounts(n, m);
      hide Unauthorized, SawTransportError, SawLocalError;
    }

    /** forward answers by itself: the last 401 passed on, or no account to pick. */
    method Answer(status: int, err: Error)
      requires HoldsNoSlot(slots) && responses == [] && !gone
      requires Settled(Now().(log := log.(status := status, err := err)), false)
      modifies this`log, this`responses
      ensures Answered() && log == old(log).(status := status, err := err)
    {
      hide HoldsNoSlot, Settled;
      log := log.(status := status, err := err);
      responses := responses + [status];
    }

    /** The call of tryEntry from forward, once a slot is taken, with what it means for the search. */
    method Attend(exclude: set<string>, account: string, retried401: bool, sawTransportErr: bool)
      returns (res: Attempt)
      requires account in slots && !gone && responses == [] && 0 < asked && free(asked - 1)
      requires Sought(Now().(asked := asked - 1), exclude, retried401, sawTransportErr)
      requires Offer(|visits|, exclude) == Some(account)
      modifies this`sent, this`waited, this`slots, this`responses, this`reports, this`log, this`gone, this`visits
      ensures slots == old(slots)[account := old(slots)[account] - 1]
      ensures |visits| == |old(visits)| + 1
      ensures res.action == Responded ==>
        !res.unauthorized && responses == (if gone then [] else [log.status]) && Settled(Now(), gone)
      ensures res.action == SwitchAccount ==> !gone && responses == []
      ensures res.unauthorized && retried401 ==>
        Settled(Now().(log := log.(status := res.status, err := UnauthorizedTwice)), false)
      ensures res.action == SwitchAccount && !(res.unauthorized && retried401) ==>
        Sought(Now(), exclude + {account}, retried401 || res.unauthorized, sawTransportErr || res.transportErr)
    {
      hide Sought, Settled, Offer, Outcome, ReportsOf, LacksCapacity, PerAccount, Repeat;
      ghost var p := Now().(asked := asked - 1);
      ghost var last, cut;
      res, last, cut := TryEntry(account);
      visits := visits + [Visit(account, |p.sent|)];
      Attended(p, Now(), exclude, account, last, cut, gone, res, retried401, sawTransportErr);
    }

    /** What one call of tryEntry means. */
    lemma Attended(p: Past, q: Past, exclude: set<string>, account: string, last: Reply, cut: bool, gone: bool,
                   res: Attempt, retried401: bool, sawTransportErr: bool)
      requires Sought(p, exclude, retried401, sawTransportErr) && Offer(|p.visits|, exclude) == Some(account)
      requires free(p.asked) && q.visits == p.visits + [Visit(account, |p.sent|)] && q.asked == p.asked + 1
      requires |p.sent| < |q.sent| <= |p.sent| + PerAccount()
      requires q.sent == p.sent + Repeat(account, |q.sent| - |p.sent|) && last == replies(|q.sent| - 1)
      requires forall i: nat | |p.sent| <= i < |q.sent| - 1 :: LacksCapacity(replies(i))
      requires cut ==> 0 < q.waited && !waits(q.waited - 1)
      requires LacksCapacity(last) && !cut ==> |q.sent| - |p.sent| == PerAccount()
      requires q.log.account == account && Outcome(account, last, cut, p.log, q.log, res)
      requires gone == (cut || (last.TransportError? && last.clientGone))
      requires q.reports == p.reports + ReportsOf(account, last, cut)
      ensures res.action == Responded ==> !res.unauthorized && Settled(q, gone)
      ensures res.action == SwitchAccount ==> !gone
      ensures res.unauthorized && retried401 ==>
        Settled(q.(log := q.log.(status := res.status, err := UnauthorizedTwice)), false)
      ensures res.action == SwitchAccount && !(res.unauthorized && retried401) ==>
        Sought(q, exclude + {account}, retried401 || res.unauthorized, sawTransportErr || res.transportErr)
    {
      hide *;
      SoughtIs(p, exclude, retried401, sawTransportErr);
      OfferIs(|p.visits|, exclude);
      AfterAttempts(|p.sent|, |q.sent|, account, last, cut, p.log, q.log, res, retried401, sawTransportErr);
      MoreAttempts(p.sent, q.sent, account, exclude);
      SearchingLog(p.log, |p.sent|, retried401, sawTransportErr);
      BudgetWithin(p.sent, exclude);
      ReportsGoOn(p.sent, q.sent, exclude, account, last, cut, p.log, q.log, res, p.reports, q.reports);
      TriesIs(p.sent, q.sent, account, last, cut, gone);
      OutcomeMovesOn(account, last, cut, p.log, q.log, res);
      TrailTried(p, q, exclude, account, gone);
      var passedOn := q.(log := q.log.(status := res.status, err := UnauthorizedTwice));
      EndsTrailOf(q, gone);
      EndsTrailOf(passedOn, false);
      if res.action == Responded {
        SettledWhen(q, gone);
      } else if res.unauthorized && retried401 {
        SettledWhen(passedOn, false);
      } else {
        SoughtWhen(q, exclude + {account}, retried401 || res.unauthorized, sawTransportErr || res.transportErr);
      }
    }

    lemma SoughtIs(p: Past, exclude: set<string>, retried401: bool, sawTransportErr: bool)
      requires Sought(p, exclude, retried401, sawTransportErr)
      ensures p.log.account == LastTried(p.sent)
      ensures Budget(p.sent, exclude) && Searching(p.log, |p.sent|, retried401, sawTransportErr)
      ensures ReportedSoFar(p.reports, p.sent, exclude) && OnTrail(p, exclude)
    {
      hide LastTried, Budget, Searching, ReportedSoFar, OnTrail;
    }

    lemma SoughtWhen(p: Past, exclude: set<string>, retried401: bool, sawTransportErr: bool)
      requires p.log.account == LastTried(p.sent)
      requires Budget(p.sent, exclude) && Searching(p.log, |p.sent|, retried401, sawTransportErr)
      requires ReportedSoFar(p.reports, p.sent, exclude) && OnTrail(p, exclude)
      ensures Sought(p, exclude, retried401, sawTransportErr)
    {
      hide LastTried, Budget, Searching, ReportedSoFar, OnTrail;
    }

    lemma SettledWhen(p: Past, gone: bool)
      requires p.log.account == LastTried(p.sent) && Bounded(p.sent) && Concluded(p.log, gone, |p.sent|)
      requires Reported(p.reports, p.sent, p.log, gone) && EndsTrail(p, gone)
      ensures Settled(p, gone)
    {
      hide LastTried, Bounded, Concluded, Reported, EndsTrail;
    }

    lemma EndsTrailOf(p: Past, gone: bool)
      ensures p.log.err != NoAccount && Ends(p.visits, p.sent, p.waited, gone) ==> EndsTrail(p, gone)
    {
      hide Ends;
    }

    lemma OfferIs(k: nat, exclude: set<string>)
      ensures var a := Offer(k, exclude); a.Some? ==> a.value in accounts && a.value !in exclude
    {
    }

    lemma TriesIs(before: seq<string>, after: seq<string>, account: string, last: Reply, cut: bool, gone: bool)
      requires |before| < |after| <= |before| + PerAccount() && last == replies(|after| - 1)
      requires after == before + Repeat(account, |after| - |before|)
      requires forall i: nat | |before| <= i < |after| - 1 :: LacksCapacity(replies(i))
      requires LacksCapacity(last) && !cut ==> |after| - |before| == PerAccount()
      requires gone == (cut || (last.TransportError? && last.clientGone))
      ensures after[..|before|] == before && Tries(after, |before|, account, gone)
    {
      hide Repeat, PerAccount;
      assert after[..|before|] == before;
    }

    lemma OutcomeMovesOn(account: string, last: Reply, cut: bool, was: Log, log: Log, res: Attempt)
      requires Outcome(account, last, cut, was, log, res) && was.err in {NoError, UpstreamTransport}
      ensures log.err != NoAccount && (cut ==> LacksCapacity(last))
      ensures res.action == SwitchAccount ==> MovesOn(last) && !cut && last != TransportError(true)
      ensures last.TransportError? && last.clientGone ==> last == TransportError(true)
    {
    }

    lemma SearchingLog(log: Log, n: nat, retried401: bool, sawTransportErr: bool)
      requires Searching(log, n, retried401, sawTransportErr)
      ensures log.err in {NoError, UpstreamTransport}
    {
    }

    lemma BudgetWithin(attempts: seq<string>, exclude: set<string>)
      requires Budget(attempts, exclude)
      ensures exclude <= accounts
    {
    }

    /** One turn of the loop of forward, after an account was picked. */
    method Turn(exclude: set<string>, account: string, retried401: bool, sawTransportErr: bool)
      returns (done: bool, retried: bool, saw: bool)
      requires Looking(exclude, retried401, sawTransportErr) && Offer(|visits|, exclude) == Some(account)
      modifies this`sent, this`waited, this`asked, this`slots, this`responses, this`reports, this`log, this`gone
      modifies this`visits
      ensures |visits| == |old(visits)| + 1
      ensures if done then Answered() else Looking(exclude + {account}, retried, saw)
    {
      hide HoldsNoSlot, Sought, Settled, Offer;
      done, retried, saw := false, retried401, sawTransportErr;
      HoldsNone(slots, account);
      OfferIs(|visits|, exclude);
      ghost var p := Now();
      var ok := TryAcquire(account);
      if !ok {
        visits := visits + [Visit(account, |sent|)];
        Refused(p, exclude, account, retried401, sawTransportErr);
        return;
      }
      assert Now().(asked := asked - 1) == p;
      var res := Attend(exclude, account, retried401, sawTransportErr);
      assert slots == old(slots);
      if res.action == Responded {
        done := true;
        return;
      }
      if res.unauthorized {
        if retried401 {
          Answer(res.status, UnauthorizedTwice);
          done := true;
          return;
        }
        retried := true;
      }
      if res.transportErr {
        saw := true;
      }
    }

    lemma HoldsNone(slots: map<string, int>, account: string)
      requires HoldsNoSlot(slots)
      ensures account in accounts ==> account in slots && slots[account] == 0
    {
    }

    /** An account without a free slot is excluded like one that was tried. */
    lemma Refused(p: Past, exclude: set<string>, account: string, retried401: bool, sawTransportErr: bool)
      requires Sought(p, exclude, retried401, sawTransportErr) && Offer(|p.visits|, exclude) == Some(account)
      requires !free(p.asked)
      ensures Sought(p.(visits := p.visits + [Visit(account, |p.sent|)], asked := p.asked + 1), exclude + {account},
                     retried401, sawTransportErr)
    {
      hide *;
      SoughtIs(p, exclude, retried401, sawTransportErr);
      OfferIs(|p.visits|, exclude);
      BudgetShrinks(p.sent, exclude, account);
      MoreTried(p.reports, p.sent, exclude, account);
      TrailRefused(p, exclude, account);
      SoughtWhen(p.(visits := p.visits + [Visit(account, |p.sent|)], asked := p.asked + 1), exclude + {account},
                 retried401, sawTransportErr);
    }

    lemma BudgetShrinks(attempts: seq<string>, exclude: set<string>, account: string)
      requires Budget(attempts, exclude) && account in accounts && account !in exclude
      ensures Budget(attempts, exclude + {account}) && Bounded(attempts)
    {
      assert Allowance(attempts, exclude + {account}) && Allowance(attempts, accounts);
      hide Allowance, PerAccount;
      Excluding(exclude, account);
    }

    lemma MoreAttempts(before: seq<string>, after: seq<string>, account: string, exclude: set<string>)
      requires |before| < |after| <= |before| + PerAccount()
      requires after == before + Repeat(account, |after| - |before|)
      requires Budget(before, exclude) && account in accounts && account !in exclude
      ensures Budget(after, exclude + {account}) && Bounded(after) && LastTried(after) == account
    {
      AttemptsPerAccount(before, account, |after| - |before|, exclude);
      assert LastTried(after) == account;
      hide *;
      MoreSteps(|before|, |after|, exclude, account);
      assert Budget(before, exclude) && after == before + Repeat(account, |after| - |before|);
    }

    lemma MoreSteps(before: nat, after: nat, exclude: set<string>, account: string)
      requires account in accounts && account !in exclude && after <= before + PerAccount()
      requires before + |accounts - exclude| * PerAccount() <= |accounts| * PerAccount()
      ensures after + |accounts - (exclude + {account})| * PerAccount() <= |accounts| * PerAccount()
      ensures after <= |accounts| * PerAccount()
    {
      hide PerAccount;
      Excluding(exclude, account);
    }

    lemma AttemptsPerAccount(before: seq<string>, account: string, k: nat, exclude: set<string>)
      requires k <= PerAccount() && account in accounts && account !in exclude && exclude <= accounts
      requires Allowance(before, exclude)
      ensures Allowance(before + Repeat(account, k), exclude + {account})
      ensures Allowance(before + Repeat(account, k), accounts)
    {
      hide Repeat, PerAccount;
      RepeatCounts(account, k);
      assert multiset(before + Repeat(account, k)) == multiset(before) + multiset(Repeat(account, k));
    }

    lemma Beginning()
      requires Fresh()
      ensures Looking({}, false, false) && picked == |visits|
    {
      assert accounts - {} == accounts;
    }

    /** forward without the deferred record. */
    method Serve()
      requires Fresh()
      modifies this`sent, this`waited, this`picked, this`asked, this`slots, this`visits
      modifies this`responses, this`reports, this`log, this`gone
      ensures Answered()
    {
      hide HoldsNoSlot, Sought, Settled, Offer;
      var exclude: set<string> := {};
      var retried401, sawTransportErr := false, false;
      Beginning();
      while true
        invariant Looking(exclude, retried401, sawTransportErr) && picked == |visits|
        decreases |accounts - exclude|
      {
        var entry := Pick(exclude);
        if entry.None? {
          NothingLeft(Now(), exclude, retried401, sawTransportErr);
          Answer(if sawTransportErr then BAD_GATEWAY else UNAVAILABLE, NoAccount);
          return;
        }
        OfferIs(|visits|, exclude);
        Excluding(exclude, entry.value);
        var done: bool;
        done, retried401, sawTransportErr := Turn(exclude, entry.value, retried401, sawTransportErr);
        if done {
          return;
        }
        exclude := exclude + {entry.value};
      }
    }

    /** No account to pick: the search ends with an answer of the gateway's own. */
    lemma NothingLeft(p: Past, exclude: set<string>, retried401: bool, sawTransportErr: bool)
      requires Sought(p, exclude, retried401, sawTransportErr) && Offer(|p.visits|, exclude) == None
      ensures var status := if sawTransportErr then BAD_GATEWAY else UNAVAILABLE;
              Settled(p.(log := p.log.(status := status, err := NoAccount)), false)
    {
      hide *;
      SoughtIs(p, exclude, retried401, sawTransportErr);
      var log := p.log.(status := if sawTransportErr then BAD_GATEWAY else UNAVAILABLE, err := NoAccount);
      BudgetBounds(p.sent, exclude);
      NoAccountConcludes(p.log, |p.sent|, retried401, sawTransportErr);
      NoAccountReports(p.reports, p.sent, exclude, log);
      NoAccountEnds(p, exclude, log);
      SettledWhen(p.(log := log), false);
    }

    lemma BudgetBounds(attempts: seq<string>, exclude: set<string>)
      requires Budget(attempts, exclude)
      ensures Bounded(attempts) && exclude <= accounts
    {
    }

    lemma NoAccountConcludes(log: Log, n: nat, retried401: bool, sawTransportErr: bool)
      requires Searching(log, n, retried401, sawTransportErr)
      ensures var status := if sawTransportErr then BAD_GATEWAY else UNAVAILABLE;
              Concluded(log.(status := status, err := NoAccount), false, n)
    {
      hide Unauthorized, SawTransportError, SawLocalError;
    }

    lemma NoAccountReports(reports: seq<Report>, attempts: seq<string>, exclude: set<string>, log: Log)
      requires ReportedSoFar(reports, attempts, exclude) && exclude <= accounts && log.err == NoAccount
      ensures Reported(reports, attempts, log, false)
    {
      hide History;
    }

    lemma NoAccountEnds(p: Past, exclude: set<string>, log: Log)
      requires OnTrail(p, exclude) && Offer(|p.visits|, exclude) == None && log.err == NoAccount
      ensures EndsTrail(p.(log := log), false)
    {
      hide Trail, Offer, Visited;
    }

    lemma Excluding(exclude: set<string>, account: string)
      requires account in accounts && account !in exclude
      ensures |accounts - (exclude + {account})| == |accounts - exclude| - 1
      ensures |accounts - exclude| * PerAccount() == |accounts - (exclude + {account})| * PerAccount() + PerAccount()
    {
      assert accounts - exclude == (accounts - (exclude + {account})) + {account};
    }

    /** forward: every request ends, is answered once unless the client is gone, gives every slot back,
        and is recorded exactly once, with the status the client saw. It gives up only when every account visited is
        excluded and Pick has none left; lack of capacity is told only when all attempts on the account were used. */
    method Forward()
      requires Fresh()
      modifies this
      ensures Answered() && records == [log]
    {
      Serve();
      records := records + [log];
    }
  }

  // ---- what the contract of forward tells of a request ----

  /** What can follow the attempt `i` when it is not the last one: only a 503 with the marker is sent again to the same
      account; after a 401, a lost or an unsigned request comes an account not tried before; nothing comes after
      any other reply. */
  predicate GoesOn(replies: nat -> Reply, sent: seq<string>, i: nat)
    requires i + 1 < |sent|
  {
    match replies(i)
    case Response(status, marker, _) =>
      || (status == 503 && marker && sent[i + 1] == sent[i])
      || (status == 401 && IsNew(sent, i + 1))
    case TransportError(clientGone) => !clientGone && IsNew(sent, i + 1)
    case SignError => IsNew(sent, i + 1)
  }

  predicate IsNew(sent: seq<string>, i: nat)
    requires i < |sent|
  {
    forall k | 0 <= k < i :: sent[k] != sent[i]
  }

  lemma LacksCapacityIs(reply: Reply)
    ensures LacksCapacity(reply) <==> reply.Response? && reply.status == 503 && reply.marker
    ensures MovesOn(reply) <==>
      reply.SignError? || (reply.TransportError? && !reply.clientGone) || (reply.Response? && reply.status == 401)
    ensures IsUnauthorized(reply) <==> reply.Response? && reply.status == 401
  {
  }

  lemma RetryGoesOn(replies: nat -> Reply, sent: seq<string>, i: nat)
    requires i + 1 < |sent|
    ensures LacksCapacity(replies(i)) && sent[i + 1] == sent[i] ==> GoesOn(replies, sent, i)
    ensures MovesOn(replies(i)) && IsNew(sent, i + 1) ==> GoesOn(replies, sent, i)
  {
    hide IsNew;
  }

  /** Whether an attempt goes on is told by the attempts up to the next one. */
  lemma GoesOnSooner(replies: nat -> Reply, sent: seq<string>, n: nat, i: nat)
    requires i + 1 < n <= |sent| && GoesOn(replies, sent[..n], i)
    ensures GoesOn(replies, sent, i)
  {
    assert IsNew(sent[..n], i + 1) ==> IsNew(sent, i + 1);
    hide IsNew;
  }

  ghost predicate AllGoOn(replies: nat -> Reply, sent: seq<string>) {
    forall i: nat | i + 1 < |sent| :: GoesOn(replies, sent, i)
  }

  /** Attempts on a new account, as Tries has them, after attempts that all go on, the last of them leaving its
      account. */
  lemma AttemptsGoOn(r: Request, sent: seq<string>, first: nat, account: string, gone: bool)
    requires r.Tries(sent, first, account, gone)
    requires AllGoOn(r.replies, sent[..first]) && (first > 0 ==> MovesOn(r.replies(first - 1)))
    requires forall k | 0 <= k < first :: sent[k] != account
    ensures AllGoOn(r.replies, sent)
  {
    TriesAre(r, sent, first, account, gone);
    hide GoesOn, MovesOn, LacksCapacity;
    forall i: nat | i + 1 < |sent| ensures GoesOn(r.replies, sent, i) {
      if i + 1 < first {
        GoesOnSooner(r.replies, sent, first, i);
      } else {
        RetryGoesOn(r.replies, sent, i);
      }
    }
  }

  lemma TriesAre(r: Request, sent: seq<string>, first: nat, account: string, gone: bool)
    requires r.Tries(sent, first, account, gone)
    ensures forall i: nat | first <= i < |sent| :: sent[i] == account
    ensures forall i: nat | first <= i < |sent| - 1 :: LacksCapacity(r.replies(i))
    ensures first < |sent| <= first + r.PerAccount()
    ensures LacksCapacity(r.replies(|sent| - 1)) && !gone ==> |sent| == first + r.PerAccount()
  {
    hide Request.PerAccount, LacksCapacity;
    assert sent == sent[..first] + Repeat(account, |sent| - first);
  }

  ghost predicate TrailIsSound(r: Request, visits: seq<Visit>, sent: seq<string>) {
    && AllGoOn(r.replies, sent) && (forall k | 0 <= k < |sent| :: sent[k] in r.Visited(visits))
    && (sent != [] ==> MovesOn(r.replies(|sent| - 1)))
  }

  lemma NoTrail(r: Request, sent: seq<string>)
    requires r.Trail([], sent)
    ensures TrailIsSound(r, [], sent)
  {
  }

  lemma ChosenIsNew(r: Request, visits: seq<Visit>, sent: seq<string>)
    requires visits != [] && r.Chosen(visits, sent)
    ensures visits[|visits| - 1].first <= |sent|
    ensures visits[|visits| - 1].account !in r.Visited(visits[..|visits| - 1])
  {
  }

  lemma TrailIs(r: Request, visits: seq<Visit>, sent: seq<string>)
    requires visits != [] && r.Trail(visits, sent)
    ensures var n := |visits| - 1;
            var v := visits[n];
            && r.Chosen(visits, sent) && v.first <= |sent| && r.Trail(visits[..n], sent[..v.first])
            && if r.free(n) then r.Tries(sent, v.first, v.account, false) && MovesOn(r.replies(|sent| - 1))
               else v.first == |sent|
  {
  }

  /** The attempts of a search that still goes on. */
  lemma {:induction false} TrailGoesOn(r: Request, visits: seq<Visit>, sent: seq<string>)
    requires r.Trail(visits, sent)
    ensures TrailIsSound(r, visits, sent)
    decreases |visits|
  {
    hide *;
    if visits == [] {
      NoTrail(r, sent);
    } else {
      var n := |visits| - 1;
      var v := visits[n];
      TrailIs(r, visits, sent);
      TrailGoesOn(r, visits[..n], sent[..v.first]);
      LastVisit(r, visits, sent, false);
    }
  }

  /** The last visit after a sound trail. */
  lemma LastVisit(r: Request, visits: seq<Visit>, sent: seq<string>, gone: bool)
    requires visits != [] && r.Chosen(visits, sent)
    requires TrailIsSound(r, visits[..|visits| - 1], sent[..visits[|visits| - 1].first])
    ensures var v := visits[|visits| - 1];
            && (r.Tries(sent, v.first, v.account, gone) ==> AllGoOn(r.replies, sent))
            && (r.Tries(sent, v.first, v.account, gone) && MovesOn(r.replies(|sent| - 1)) ==>
                  TrailIsSound(r, visits, sent))
            && (v.first == |sent| ==> TrailIsSound(r, visits, sent))
  {
    hide AllGoOn, MovesOn, Request.Tries, Request.Visited, Request.Offer, GoesOn;
    var n := |visits| - 1;
    var v := visits[n];
    ChosenIsNew(r, visits, sent);
    r.VisitedMore(visits[..n], v);
    assert visits == visits[..n] + [v];
    assert sent[..|sent|] == sent;
    assert forall k | 0 <= k < v.first :: sent[k] == sent[..v.first][k];
    if r.Tries(sent, v.first, v.account, gone) {
      AttemptsGoOn(r, sent, v.first, v.account, gone);
      TriesAre(r, sent, v.first, v.account, gone);
    }
  }

  /** Every attempt that is followed by another one was refused for lack of capacity, and then the next one goes to the
      same account, or was a 401, lost or unsigned, and then it goes to an account not tried before. */
  lemma AttemptsFollow(r: Request, i: nat)
    requires r.Answered() && i + 1 < |r.sent|
    ensures match r.replies(i)
            case Response(status, marker, _) =>
              || (status == 503 && marker && r.sent[i + 1] == r.sent[i])
              || (status == 401 && r.sent[i + 1] !in r.sent[..i + 1])
            case TransportError(clientGone) => !clientGone && r.sent[i + 1] !in r.sent[..i + 1]
            case SignError => r.sent[i + 1] !in r.sent[..i + 1]
  {
    hide Request.Settled, Request.HoldsNoSlot, AllGoOn;
    SettledGoesOn(r, r.Now(), r.gone);
    GoesOnAt(r.replies, r.sent, i);
  }

  lemma GoesOnAt(replies: nat -> Reply, sent: seq<string>, i: nat)
    requires AllGoOn(replies, sent) && i + 1 < |sent|
    ensures GoesOn(replies, sent, i)
  {
    hide GoesOn;
  }

  lemma SettledGoesOn(r: Request, p: Past, gone: bool)
    requires r.Settled(p, gone)
    ensures AllGoOn(r.replies, p.sent)
  {
    hide *;
    SettledIs(r, p, gone);
    EndsTrailIs(r, p, gone);
    if p.log.err == NoAccount {
      TrailGoesOn(r, p.visits, p.sent);
      SoundGoesOn(r, p.visits, p.sent);
    } else {
      EndGoesOn(r, p.visits, p.sent, p.waited, gone);
    }
  }

  lemma EndGoesOn(r: Request, visits: seq<Visit>, sent: seq<string>, waited: nat, gone: bool)
    requires r.Ends(visits, sent, waited, gone)
    ensures AllGoOn(r.replies, sent)
  {
    hide *;
    EndsIs(r, visits, sent, waited, gone);
    TrailGoesOn(r, visits[..|visits| - 1], sent[..visits[|visits| - 1].first]);
    LastVisit(r, visits, sent, gone);
  }

  lemma SettledIs(r: Request, p: Past, gone: bool)
    requires r.Settled(p, gone)
    ensures p.log.account == r.LastTried(p.sent) && r.Bounded(p.sent) && r.Concluded(p.log, gone, |p.sent|)
    ensures r.Reported(p.reports, p.sent, p.log, gone) && r.EndsTrail(p, gone)
  {
    hide Request.LastTried, Request.Bounded, Request.Concluded, Request.Reported, Request.EndsTrail;
  }

  lemma EndsTrailIs(r: Request, p: Past, gone: bool)
    requires r.EndsTrail(p, gone)
    ensures if p.log.err == NoAccount then !gone && r.Trail(p.visits, p.sent)
            else r.Ends(p.visits, p.sent, p.waited, gone)
  {
    hide Request.Trail, Request.Ends;
  }

  lemma EndsIs(r: Request, visits: seq<Visit>, sent: seq<string>, waited: nat, gone: bool)
    requires r.Ends(visits, sent, waited, gone)
    ensures var n := |visits| - 1;
            && n >= 0 && r.Chosen(visits, sent) && visits[n].first <= |sent| && sent != []
            && r.Trail(visits[..n], sent[..visits[n].first]) && r.Tries(sent, visits[n].first, visits[n].account, gone)
    ensures gone ==>
      || r.replies(|sent| - 1) == TransportError(true)
      || (LacksCapacity(r.replies(|sent| - 1)) && 0 < waited && !r.waits(waited - 1))
  {
    hide Request.Trail, LacksCapacity;
  }

  lemma SoundGoesOn(r: Request, visits: seq<Visit>, sent: seq<string>)
    requires TrailIsSound(r, visits, sent)
    ensures AllGoOn(r.replies, sent) && (sent != [] ==> MovesOn(r.replies(|sent| - 1)))
  {
    hide AllGoOn, MovesOn;
  }

  /** A request without an account in the end was not left with a reply to pass on; one whose client has gone lost it
      during its last attempt, or in a wait after a lack of capacity. */
  lemma LastReplyOf(r: Request, p: Past, gone: bool)
    requires r.Settled(p, gone)
    ensures p.log.err == NoAccount ==> !gone && (p.sent != [] ==> MovesOn(r.replies(|p.sent| - 1)))
    ensures p.log.err != NoAccount ==> p.sent != []
    ensures gone ==> r.replies(|p.sent| - 1) == TransportError(true) || LacksCapacity(r.replies(|p.sent| - 1))
  {
    hide *;
    SettledIs(r, p, gone);
    EndsTrailIs(r, p, gone);
    if p.log.err == NoAccount {
      TrailGoesOn(r, p.visits, p.sent);
      SoundGoesOn(r, p.visits, p.sent);
    } else {
      EndsIs(r, p.visits, p.sent, p.waited, gone);
    }
  }

  lemma {:induction false} UnauthorizedIff(r: Request, n: nat)
    ensures r.Unauthorized(n) > 0 <==> WasUnauthorized(r.replies, n)
  {
    if n > 0 {
      UnauthorizedIff(r, n - 1);
    }
  }

  /** What the client, the log and the pool are told, by the last reply; a 401 is passed on only when it is the
      second one. */
  ghost predicate IsTold(replies: nat -> Reply, sent: seq<string>, gone: bool, responses: seq<int>,
                         reports: seq<Report>, log: Log)
    requires sent != []
  {
    var n := |sent| - 1;
    && log.account == sent[n] && responses == (if gone then [] else [log.status])
    && match replies(n)
       case Response(status, marker, usage) =>
         if 200 <= status < 300 then
           !gone && log.status == status && log.usage == usage && EndsWith(reports, Success(sent[n]))
         else if status == 401 then
           !gone && if WasUnauthorized(replies, n)
                    then log == Log(sent[n], 401, UnauthorizedTwice, NO_USAGE) else log.err == NoAccount
         else if status == 503 && marker then
           log == if gone then Log(sent[n], 499, ClientDisconnectedWaiting, NO_USAGE)
                  else Log(sent[n], 503, CapacityExhausted, NO_USAGE)
         else
           && !gone && log == Log(sent[n], status, StatusText(status), NO_USAGE)
           && EndsWith(reports, Failure(sent[n], Some(status)))
       case TransportError(clientGone) =>
         if clientGone then gone && log == Log(sent[n], 499, ClientDisconnected, NO_USAGE)
         else !gone && log.err == NoAccount
       case SignError => !gone && log.err == NoAccount
  }

  /** Was one of the first `n` replies a 401? */
  predicate WasUnauthorized(replies: nat -> Reply, n: nat) {
    exists i: nat | i < n :: replies(i).Response? && replies(i).status == 401
  }

  predicate EndsWith(reports: seq<Report>, report: Report) { reports != [] && reports[|reports| - 1] == report }

  /** Every request that was sent at all is told about like that. */
  lemma LastReplyIsTold(r: Request)
    requires r.Answered() && r.sent != []
    ensures IsTold(r.replies, r.sent, r.gone, r.responses, r.reports, r.log)
  {
    hide Request.Settled, Request.HoldsNoSlot, IsTold;
    SettledIsTold(r, r.Now(), r.gone);
  }

  lemma SettledIsTold(r: Request, p: Past, gone: bool)
    requires r.Settled(p, gone) && p.sent != []
    ensures IsTold(r.replies, p.sent, gone, if gone then [] else [p.log.status], p.reports, p.log)
  {
    var n := |p.sent|;
    hide *;
    SettledIs(r, p, gone);
    LastReplyOf(r, p, gone);
    UnauthorizedIff(r, n - 1);
    UnauthorizedIs(r, n);
    LastReportIs(r, p, gone);
    LastTriedIs(r, p.sent);
    SettledLog(r, p, gone);
  }

  lemma UnauthorizedIs(r: Request, n: nat)
    requires n > 0
    ensures r.Unauthorized(n) == r.Unauthorized(n - 1) + if IsUnauthorized(r.replies(n - 1)) then 1 else 0
  {
  }

  lemma LastTriedIs(r: Request, sent: seq<string>)
    requires sent != []
    ensures r.LastTried(sent) == sent[|sent| - 1]
  {
  }

  /** The last report is on the reply that was passed on, unless there is nothing to report. */
  predicate EndsWithVerdict(reports: seq<Report>, log: Log, gone: bool) {
    !gone && log.err in {NoError, UpstreamTransport, StatusText(log.status)} ==>
      EndsWith(reports,
               if 200 <= log.status < 300 then Success(log.account) else Failure(log.account, Some(log.status)))
  }

  lemma LastReportIs(r: Request, p: Past, gone: bool)
    requires r.Reported(p.reports, p.sent, p.log, gone)
    ensures EndsWithVerdict(p.reports, p.log, gone)
  {
    hide Request.History, Request.OncePerAccount;
  }

  lemma SettledLog(r: Request, p: Past, gone: bool)
    requires p.sent != [] && r.Concluded(p.log, gone, |p.sent|) && p.log.account == p.sent[|p.sent| - 1]
    requires p.log.err == NoAccount ==> !gone && MovesOn(r.replies(|p.sent| - 1))
    requires gone ==> r.replies(|p.sent| - 1) == TransportError(true) || LacksCapacity(r.replies(|p.sent| - 1))
    requires var n := |p.sent|;
      r.Unauthorized(n) == r.Unauthorized(n - 1) + if IsUnauthorized(r.replies(n - 1)) then 1 else 0
    requires r.Unauthorized(|p.sent| - 1) > 0 <==> WasUnauthorized(r.replies, |p.sent| - 1)
    requires EndsWithVerdict(p.reports, p.log, gone)
    ensures IsTold(r.replies, p.sent, gone, if gone then [] else [p.log.status], p.reports, p.log)
  {
    hide Request.Unauthorized, EndsWith, WasUnauthorized, Request.SawTransportError, Request.SawLocalError;
  }

  /** A 503 with the marker is the last reply only when the account was given all its attempts and all of them lacked
      capacity, or when the client is gone; and then its wait was cut short. */
  lemma CapacityIsUsedUp(r: Request)
    requires r.Answered() && r.sent != []
    requires var last := r.replies(|r.sent| - 1); last.Response? && last.status == 503 && last.marker
    ensures r.gone ==> 0 < r.waited && !r.waits(r.waited - 1)
    ensures var tries := if r.capacityRetries > 0 then r.capacityRetries + 1 else 1;
            !r.gone ==> tries <= |r.sent| && forall i: nat | |r.sent| - tries <= i < |r.sent| ::
              && r.sent[i] == r.log.account
              && r.replies(i).Response? && r.replies(i).status == 503 && r.replies(i).marker
  {
    hide *;
    LastReplyIsTold(r);
    if r.gone {
      AnsweredIs(r);
      GoneWaiting(r, r.Now());
    } else {
      CapacityIsTold(r.replies, r.sent, r.responses, r.reports, r.log);
      CapacityIsToldLast(r);
      AllowedIs(r);
      forall i: nat | |r.sent| - r.PerAccount() <= i < |r.sent|
        ensures r.replies(i).Response? && r.replies(i).status == 503 && r.replies(i).marker
      {
        LacksCapacityIs(r.replies(i));
      }
    }
  }

  lemma AnsweredIs(r: Request)
    requires r.Answered()
    ensures r.Settled(r.Now(), r.gone) && r.Now().sent == r.sent && r.Now().waited == r.waited
  {
    hide Request.Settled, Request.HoldsNoSlot;
  }

  lemma CapacityIsTold(replies: nat -> Reply, sent: seq<string>, responses: seq<int>, reports: seq<Report>, log: Log)
    requires sent != [] && IsTold(replies, sent, false, responses, reports, log)
    requires var last := replies(|sent| - 1); last.Response? && last.status == 503 && last.marker
    ensures log.err == CapacityExhausted
  {
    hide EndsWith, WasUnauthorized;
  }

  lemma AllowedIs(r: Request)
    ensures r.PerAccount() == if r.capacityRetries > 0 then r.capacityRetries + 1 else 1
  {
  }

  lemma GoneWaiting(r: Request, p: Past)
    requires r.Settled(p, true) && p.sent != [] && r.replies(|p.sent| - 1) != TransportError(true)
    ensures 0 < p.waited && !r.waits(p.waited - 1)
  {
    hide *;
    SettledIs(r, p, true);
    EndsTrailIs(r, p, true);
    EndsIs(r, p.visits, p.sent, p.waited, true);
  }

  /** No account is tried more often than that. */
  lemma AttemptsAreFew(r: Request, account: string)
    requires r.Answered()
    ensures var tries := if r.capacityRetries > 0 then r.capacityRetries + 1 else 1;
            multiset(r.sent)[account] <= tries && |r.sent| <= |r.accounts| * tries
  {
    hide Request.HoldsNoSlot, Request.Reported, Request.Concluded, Request.EndsTrail;
  }

  /** What is to be reported of an attempt. */
  predicate Earns(report: Report, account: string, reply: Reply) {
    match reply
    case SignError => report == Failure(account, None)
    case TransportError(clientGone) => !clientGone && report == Failure(account, None)
    case Response(status, marker, _) =>
      if 200 <= status < 300 then report == Success(account)
      else status != 401 && !(status == 503 && marker) && report == Failure(account, Some(status))
  }

  /** Exactly the attempts that could not be signed or sent, got a 2xx, or got a reply that is neither a 401 nor a lack
      of capacity are reported, each as what it was. */
  lemma ReportedIff(r: Request, report: Report)
    requires r.Answered()
    ensures report in r.reports <==> exists i: nat | i < |r.sent| :: Earns(report, r.sent[i], r.replies(i))
  {
    hide Request.HoldsNoSlot, Request.Bounded, Request.Concluded, Request.EndsTrail, Request.History;
    HistoryHas(r, r.sent, report);
  }

  lemma {:induction false} HistoryHas(r: Request, sent: seq<string>, report: Report)
    ensures report in r.History(sent) <==> exists i: nat | i < |sent| :: Earns(report, sent[i], r.replies(i))
  {
    hide *;
    if sent == [] {
      NoHistory(r);
    } else {
      var n := |sent| - 1;
      assert sent == sent[..n] + [sent[n]];
      HistoryHas(r, sent[..n], report);
      r.HistoryAppend(sent[..n], sent[n]);
      EarnsIs(report, sent[n], r.replies(n));
    }
  }

  lemma NoHistory(r: Request)
    ensures r.History([]) == []
  {
  }

  lemma EarnsIs(report: Report, account: string, reply: Reply)
    ensures report in ReportsOf(account, reply, false) <==> Earns(report, account, reply)
  {
  }

  /** Without any account left the gateway answers by itself: 502 after a lost or unsigned request, else 503. */
  lemma NoAccountIsTold(r: Request)
    requires r.Answered() && r.log.err == NoAccount
    ensures !r.gone && r.responses == [r.log.status]
    ensures r.log.status ==
      if exists i: nat | i < |r.sent| :: r.replies(i).SignError? || r.replies(i) == TransportError(false)
      then 502 else 503
  {
    hide Request.HoldsNoSlot, Request.Bounded, Request.Reported, Request.Unauthorized, Request.Trail, Request.Offer;
  }

  /** Lack of capacity is told only when the last account lacked it in every one of the attempts allowed. */
  lemma CapacityIsToldLast(r: Request)
    requires r.Answered() && r.log.err == CapacityExhausted
    ensures |r.sent| >= r.PerAccount()
    ensures forall i: nat | |r.sent| - r.PerAccount() <= i < |r.sent| ::
      r.sent[i] == r.log.account && LacksCapacity(r.replies(i))
  {
    hide Request.Settled, Request.PerAccount, LacksCapacity, Request.HoldsNoSlot;
    CapacityAtEnd(r, r.Now(), r.gone);
  }

  lemma CapacityAtEnd(r: Request, p: Past, gone: bool)
    requires r.Settled(p, gone) && p.log.err == CapacityExhausted
    ensures |p.sent| >= r.PerAccount()
    ensures forall i: nat | |p.sent| - r.PerAccount() <= i < |p.sent| ::
      p.sent[i] == p.log.account && LacksCapacity(r.replies(i))
  {
    hide Request.PerAccount, Request.Trail, Request.Reported, Request.Bounded;
    var v := p.visits[|p.visits| - 1];
    assert LacksCapacity(r.replies(|p.sent| - 1)) && !gone;
    var k := |p.sent| - v.first;
    assert p.sent == p.sent[..v.first] + Repeat(v.account, k);
    assert forall i | v.first <= i < |p.sent| :: p.sent[i] == v.account;
  }

  /** A script: the request is lost on the way to the first account; the second one answers it with a 2xx. */
  ghost predicate LostThenServed(r: Request, a: string, b: string) {
    && a in r.accounts && b in r.accounts && a != b
    && r.picks(0) == Some(a) && r.picks(1) == Some(b) && r.free(0) && r.free(1)
    && r.replies(0) == TransportError(false) && r.replies(1).Response? && IsSuccess(r.replies(1).status)
  }

  lemma TriesOnce(r: Request, attempts: seq<string>, first: nat, account: string, gone: bool)
    requires r.Tries(attempts, first, account, gone) && !LacksCapacity(r.replies(first))
    ensures |attempts| == first + 1
  {
  }

  lemma OfferOfLost(r: Request, a: string, b: string)
    requires LostThenServed(r, a, b)
    ensures r.Visited([]) == {} && r.Visited([Visit(a, 0)]) == {a}
    ensures r.Offer(0, {}) == Some(a) && r.Offer(1, {a}) == Some(b)
    ensures !LacksCapacity(r.replies(0)) && !LacksCapacity(r.replies(1)) && !MovesOn(r.replies(1))
  {
    assert Visit(a, 0) in [Visit(a, 0)];
  }

  /** In such a script a search that still goes on has made the first visit at most. */
  lemma TrailOfLost(r: Request, a: string, b: string, visits: seq<Visit>, attempts: seq<string>)
    requires LostThenServed(r, a, b) && r.Trail(visits, attempts)
    ensures visits == [] ==> attempts == []
    ensures visits != [] ==> visits == [Visit(a, 0)] && |attempts| == 1
    decreases |visits|
  {
    hide LostThenServed, Request.Offer, Request.Visited, Request.Tries, MovesOn, LacksCapacity;
    FreeOfLost(r, a, b);
    OfferOfLost(r, a, b);
    if visits != [] {
      var n := |visits| - 1;
      TrailOfLost(r, a, b, visits[..n], attempts[..visits[n].first]);
      if n <= 1 {
        TriesOnce(r, attempts, visits[n].first, visits[n].account, false);
      }
    }
  }

  lemma FreeOfLost(r: Request, a: string, b: string)
    requires LostThenServed(r, a, b)
    ensures r.free(0) && r.free(1)
  {
  }

  /** The log of a request that was lost once and then served keeps the text of the lost one. */
  lemma ErrorTextSurvivesSuccess(r: Request, a: string, b: string)
    requires LostThenServed(r, a, b) && r.Answered()
    ensures r.log == Log(b, r.replies(1).status, UpstreamTransport, r.replies(1).usage)
  {
    hide Request.Settled, LostThenServed, Request.HoldsNoSlot;
    EndOfLost(r, a, b, r.Now(), r.gone);
  }

  lemma EndOfLost(r: Request, a: string, b: string, p: Past, gone: bool)
    requires LostThenServed(r, a, b) && r.Settled(p, gone)
    ensures p.log == Log(b, r.replies(1).status, UpstreamTransport, r.replies(1).usage)
  {
    OfferOfLost(r, a, b);
    if p.log.err == NoAccount {
      TrailOfLost(r, a, b, p.visits, p.sent);
    } else {
      var n := |p.visits| - 1;
      var first := p.visits[n].first;
      TrailOfLost(r, a, b, p.visits[..n], p.sent[..first]);
      TriesOnce(r, p.sent, first, p.visits[n].account, gone);
      assert n == 1 && |p.sent| == 2 && !gone;
      assert r.replies(0) == TransportError(false);
    }
  }

  /** Such a request exists. */
  method ServedAfterLoss() returns (log: Log)
    ensures log == Log("b", 200, UpstreamTransport, NO_USAGE)
  {
    var r := new Request({"a", "b"}, 0, n => if n == 0 then TransportError(false) else Response(200, false, NO_USAGE),
                         n => true, n => if n == 0 then Some("a") else Some("b"), n => true);
    r.Forward();
    ErrorTextSurvivesSuccess(r, "a", "b");
    log := r.log;
  }

  lemma RepeatMore(account: string, n: nat)
    ensures Repeat(account, n + 1) == Repeat(account, n) + [account]
    ensures Repeat(account, 0) == [] && |Repeat(account, n)| == n
  {
  }

  /** A wait that was cut short, like any lack of capacity, is not reported. */
  lemma CutIsNotReported(account: string, last: Reply, cut: bool)
    requires cut ==> LacksCapacity(last)
    ensures ReportsOf(account, last, cut) == ReportsOf(account, last, false)
    ensures LacksCapacity(last) ==> ReportsOf(account, last, false) == []
  {
  }

  lemma {:induction false} RepeatCounts(account: string, n: nat)
    ensures forall a :: multiset(Repeat(account, n))[a] == if a == account then n else 0
  {
    if n > 0 {
      RepeatCounts(account, n - 1);
      assert Repeat(account, n) == Repeat(account, n - 1) + [account];
    } else {
      assert Repeat(account, 0) == [];
    }
  }

  /** A reply after which another account is tried, if it is not the second 401. */
  predicate MovesOn(r: Reply) { IsUnauthorized(r) || r.SignError? || r == TransportError(false) }

  predicate IsUnauthorized(r: Reply) { r.Response? && r.status == UNAUTHORIZED }

  /** What an attempt reports to the pool. Lack of capacity and 401 are not the account's failure. */
  function ReportsOf(account: string, last: Reply, cut: bool): seq<Report> {
    match last
    case SignError => [Failure(account, None)]
    case TransportError(clientGone) => if clientGone then [] else [Failure(account, None)]
    case Response(status, _, _) =>
      if cut || LacksCapacity(last) || status == UNAUTHORIZED then []
      else if IsSuccess(status) then [Success(account)]
      else [Failure(account, Some(status))]
  }

  /** What an attempt leaves in the log and asks of the caller, by its last reply. */
  predicate Outcome(account: string, last: Reply, cut: bool, before: Log, after: Log, res: Attempt) {
    var tried := before.(account := account);
    var switchOn401 := IsUnauthorized(last) && !cut;
    var switchOnError := last.SignError? || last == TransportError(false);
    && (res.action == SwitchAccount <==> switchOn401 || switchOnError)
    && (res.unauthorized <==> switchOn401) && (res.transportErr <==> switchOnError)
    && (switchOn401 ==> res.status == UNAUTHORIZED) && (cut ==> LacksCapacity(last))
    && after ==
       if cut then tried.(status := CLIENT_GONE, err := ClientDisconnectedWaiting)
       else match last
         case SignError => tried
         case TransportError(clientGone) =>
           if clientGone then tried.(status := CLIENT_GONE, err := ClientDisconnected)
           else tried.(err := UpstreamTransport)
         case Response(status, _, usage) =>
           if status == UNAUTHORIZED then tried
           else if IsSuccess(status) then tried.(status := status, usage := usage)
           else tried.(status := status, err := if LacksCapacity(last) then CapacityExhausted else StatusText(status))
  }
}
