/** watcher/internal/contract/contract.go (simulate, prepare, sign, submit, poll) and
    runOneRound of watcher/cmd/watcher/main.go, as the trace of RPC calls they make. */
module Submission {
  import opened Wrappers
  import opened Sequences
  import opened ScVal
  import Retry

  // ------------------------------------------------------------- transactions

  /** The footprint, fee and authorization entries a simulation supplies. */
  datatype Simulated = Simulated(data: string, auth: seq<string>)

  datatype Operation = Operation(contract: string, name: string, args: seq<ScVal>, simulated: Option<Simulated>)

  datatype Envelope = Envelope(op: Operation, sequence: int, signed: bool)

  // ---------------------------------------------------------------- the network

  datatype RpcCall =
    | LoadAccount
    | Simulate(tx: Envelope)
    | Send(tx: Envelope)
    | Poll(hash: string)

  /** A nil field is None; base64 that does not decode is Undecodable. */
  datatype Xdr<T> = Undecodable | Decoded(value: T)

  datatype SimResult = SimResult(returnValue: Option<Xdr<ScVal>>, auth: Option<seq<Xdr<string>>>)

  datatype SimResponse = SimResponse(error: string, results: seq<SimResult>, data: Xdr<string>)

  datatype SendResponse = SendResponse(status: string, hash: string)

  /** What the n-th RPC call returns, by kind; None is a transport failure. `cancelled(n)` says
      whether the context ends the wait after a failed n-th call. */
  datatype Network = Network(
    account: nat -> Option<int>,
    simulation: nat -> Option<SimResponse>,
    sending: nat -> Option<SendResponse>,
    polling: nat -> Option<string>,
    cancelled: nat -> bool
  )

  /** How retry.Do goes through `n` calls from call number `at` on: every one before the last
      failed without the wait after it being cancelled, and the last one succeeded, or was the
      last allowed, or was cut off. */
  ghost predicate Tried<T(!new)>(opts: Retry.Options, reply: nat -> Option<T>, cancelled: nat -> bool, at: nat, n: nat) {
    && 1 <= n <= Retry.Attempts(opts)
    && (forall k: nat :: at <= k < at + n - 1 ==> reply(k).None? && !cancelled(k))
    && (reply(at + n - 1).None? ==> n == Retry.Attempts(opts) || cancelled(at + n - 1))
  }

  /** Call k is answered, and no wait before it is cancelled. */
  ghost predicate Reached<T(!new)>(reply: nat -> Option<T>, cancelled: nat -> bool, at: nat, k: nat) {
    reply(k).Some? && forall j: nat :: at <= j < k ==> !cancelled(j)
  }

  /** That fixes the number of calls, and the last succeeds exactly when one of the calls allowed
      is reached. */
  lemma TriedOnce<T(!new)>(opts: Retry.Options, reply: nat -> Option<T>, cancelled: nat -> bool, at: nat, n: nat, m: nat)
    requires Tried(opts, reply, cancelled, at, n)
    ensures Tried(opts, reply, cancelled, at, m) ==> n == m
    ensures reply(at + n - 1).Some? <==>
            exists k: nat :: at <= k < at + Retry.Attempts(opts) && Reached(reply, cancelled, at, k)
  {
    if reply(at + n - 1).Some? {
      assert Reached(reply, cancelled, at, at + n - 1);
    }
    if k: nat :| at <= k < at + Retry.Attempts(opts) && Reached(reply, cancelled, at, k) {
      assert reply(at + n - 1).Some?;
    }
  }

  /** One call under retry.Do, starting as call number `at`: the reply of the last attempt if it
      succeeded. */
  method Retried<T(!new)>(opts: Retry.Options, at: nat, call: RpcCall, reply: nat -> Option<T>, cancelled: nat -> bool)
    returns (result: Option<T>, calls: seq<RpcCall>)
    ensures Tried(opts, reply, cancelled, at, |calls|) && calls == Repeat(call, |calls|)
    ensures result == reply(at + |calls| - 1)
  {
    var fn, cut := (k: nat) => reply(at + k), (k: nat) => cancelled(at + k);
    var outcome, attempts, _ := Retry.Do(opts, fn, cut);
    calls := Repeat(call, attempts);
    result := if outcome.Ok? then Some(outcome.value) else None;
    forall n: nat | at <= n < at + |calls| - 1
      ensures reply(n).None? && !cancelled(n)
    {
      assert fn(n - at).None? && !cut(n - at);
    }
  }

  // ------------------------------------------------------------------ simulate

  /** What a simulation prepares, when it carries no error and its XDR decodes. */
  function Prepare(op: Operation, sim: SimResponse): Option<Operation> {
    if sim.error != "" || sim.data.Undecodable? then None
    else if |sim.results| > 0 && sim.results[0].auth.Some? then
      if exists i :: 0 <= i < |sim.results[0].auth.value| && sim.results[0].auth.value[i].Undecodable? then None
      else
        var auth := sim.results[0].auth.value;
        Some(op.(simulated := Some(Simulated(sim.data.value,
                                             seq(|auth|, i requires 0 <= i < |auth| && auth[i].Decoded? => auth[i].value)))))
    else Some(op.(simulated := Some(Simulated(sim.data.value, []))))
  }

  /** `prepared` is `op` with what the simulation supplies: its transaction data, and the
      authorization entries of its first result, in order, or none if it lists none. */
  ghost predicate CarriesSimulation(prepared: Operation, op: Operation, sim: SimResponse) {
    && prepared.contract == op.contract && prepared.name == op.name && prepared.args == op.args
    && prepared.simulated.Some?
    && sim.error == "" && sim.data == Decoded(prepared.simulated.value.data)
    && var auth := prepared.simulated.value.auth;
       if |sim.results| > 0 && sim.results[0].auth.Some? then
         && |auth| == |sim.results[0].auth.value|
         && forall i :: 0 <= i < |auth| ==> sim.results[0].auth.value[i] == Decoded(auth[i])
       else auth == []
  }

  lemma PrepareMeans(op: Operation, sim: SimResponse, prepared: Operation)
    ensures Prepare(op, sim) == Some(prepared) <==> CarriesSimulation(prepared, op, sim)
  {
    if CarriesSimulation(prepared, op, sim) {
      if |sim.results| > 0 && sim.results[0].auth.Some? {
        var entries, auth := sim.results[0].auth.value, prepared.simulated.value.auth;
        assert forall i :: 0 <= i < |entries| ==> entries[i] == Decoded(auth[i]);
        assert Prepare(op, sim).value.simulated.value.auth == auth;
      }
    }
  }

  /** A simulation that came back without an error. */
  function Accepted(reply: Option<SimResponse>): Option<SimResponse> {
    if reply.Some? && reply.value.error == "" then reply else None
  }

  /** `loads` calls for the account, and once one is answered `sims` calls that simulate one
      unsigned transaction of it. */
  ghost predicate SimPhase(opts: Retry.Options, net: Network, at: nat, op: Operation, loads: nat, sims: nat, tx: Envelope) {
    && Tried(opts, net.account, net.cancelled, at, loads)
    && (sims > 0 <==> net.account(at + loads - 1).Some?)
    && (sims > 0 ==> Tried(opts, net.simulation, net.cancelled, at + loads, sims)
                     && tx == Envelope(op, net.account(at + loads - 1).value + 1, false))
  }

  /** What the simulate phase yields. */
  function SimResultAt(net: Network, at: nat, loads: nat, sims: nat): Option<SimResponse> {
    if sims == 0 then None else Accepted(net.simulation(at + loads + sims - 1))
  }

  /** simulate: load the account, then simulate one unsigned transaction. */
  method SimulateOp(opts: Retry.Options, net: Network, at: nat, op: Operation)
    returns (sim: Option<SimResponse>, calls: seq<RpcCall>, loads: nat, ghost tx: Envelope)
    ensures loads <= |calls| && SimPhase(opts, net, at, op, loads, |calls| - loads, tx)
    ensures calls == Repeat(LoadAccount, loads) + Repeat(Simulate(tx), |calls| - loads)
    ensures sim == SimResultAt(net, at, loads, |calls| - loads)
  {
    hide Tried;
    var account, accountCalls := Retried(opts, at, LoadAccount, net.account, net.cancelled);
    loads := |accountCalls|;
    TriedSome(opts, net.account, net.cancelled, at, loads);
    if account.None? {
      tx := Envelope(op, 0, false);
      calls := accountCalls;
      return None, calls, loads, tx;
    }
    tx := Envelope(op, account.value + 1, false);
    var unsigned := Envelope(op, account.value + 1, false);
    var response, simCalls := Retried(opts, at + loads, Simulate(unsigned), net.simulation, net.cancelled);
    TriedSome(opts, net.simulation, net.cancelled, at + loads, |simCalls|);
    calls := accountCalls + simCalls;
    sim := if response.Some? && response.value.error == "" then response else None;
  }

  lemma TriedSome<T(!new)>(opts: Retry.Options, reply: nat -> Option<T>, cancelled: nat -> bool, at: nat, n: nat)
    requires Tried(opts, reply, cancelled, at, n)
    ensures 1 <= n <= Retry.Attempts(opts)
  {
  }

  // ------------------------------------------------------------ submit_check

  /** How many calls each phase of a submission made, and with what. */
  datatype Phases = Phases(loads: nat, sims: nat, reloads: nat, sends: nat, polls: nat,
                           unsigned: Envelope, signed: Envelope, hash: string)

  function CallsOf(p: Phases): seq<RpcCall> {
    Repeat(LoadAccount, p.loads) + Repeat(Simulate(p.unsigned), p.sims) + Repeat(LoadAccount, p.reloads)
    + Repeat(Send(p.signed), p.sends) + Repeat(Poll(p.hash), p.polls)
  }

  /** The envelope is sent until a send is answered; only an accepted send is polled, for its
      hash. */
  ghost predicate SendPhase(opts: Retry.Options, net: Network, at: nat, sends: nat, polls: nat, hash: string) {
    && Tried(opts, net.sending, net.cancelled, at, sends)
    && var sent := net.sending(at + sends - 1);
       && (polls > 0 <==> sent.Some? && sent.value.status != "ERROR")
       && (polls > 0 ==> hash == sent.value.hash && Tried(opts, net.polling, net.cancelled, at + sends, polls))
  }

  /** submitAndPoll. */
  method SubmitAndPoll(opts: Retry.Options, net: Network, at: nat, tx: Envelope)
    returns (ok: bool, calls: seq<RpcCall>, sends: nat, ghost hash: string)
    ensures 1 <= sends <= |calls| && SendPhase(opts, net, at, sends, |calls| - sends, hash)
    ensures calls == Repeat(Send(tx), sends) + Repeat(Poll(hash), |calls| - sends)
    ensures ok <==> |calls| > sends && net.polling(at + |calls| - 1) == Some("SUCCESS")
  {
    hide Tried;
    var sent, sendCalls := Retried(opts, at, Send(tx), net.sending, net.cancelled);
    sends, calls, hash := |sendCalls|, sendCalls, "";
    TriedSome(opts, net.sending, net.cancelled, at, sends);
    if sent.None? || sent.value.status == "ERROR" {
      return false, calls, sends, hash;
    }
    hash := sent.value.hash;
    var status, pollCalls := Retried(opts, at + sends, Poll(sent.value.hash), net.polling, net.cancelled);
    TriedSome(opts, net.polling, net.cancelled, at + sends, |pollCalls|);
    calls := sendCalls + pollCalls;
    ok := status == Some("SUCCESS");
  }

  /** What the simulate phase of a submission prepares. */
  function Prepared(p: Phases, op: Operation, net: Network, at: nat): Option<Operation> {
    var sim := SimResultAt(net, at, p.loads, p.sims);
    if sim.None? then None else Prepare(op, sim.value)
  }

  /** The account loaded for signing. */
  function Reloaded(p: Phases, net: Network, at: nat): Option<int> {
    if p.reloads == 0 then None else net.account(at + p.loads + p.sims + p.reloads - 1)
  }

  /** Each phase is entered exactly when the one before it got what it needs: simulation after a
      loaded account, a second load after a simulation that prepares, the sends after that load,
      with the one envelope signed for it, and the polls after an accepted send. Within a phase
      the calls go as retry.Do makes them. */
  ghost predicate InOrder(opts: Retry.Options, p: Phases, op: Operation, net: Network, at: nat) {
    && SimPhase(opts, net, at, op, p.loads, p.sims, p.unsigned)
    && (p.reloads > 0 <==> Prepared(p, op, net, at).Some?)
    && (p.reloads > 0 ==> Tried(opts, net.account, net.cancelled, at + p.loads + p.sims, p.reloads))
    && (p.sends > 0 <==> Reloaded(p, net, at).Some?)
    && (p.sends > 0 ==>
          && Prepared(p, op, net, at).Some?
          && p.signed == Envelope(Prepared(p, op, net, at).value, Reloaded(p, net, at).value + 1, true)
          && SendPhase(opts, net, at + p.loads + p.sims + p.reloads, p.sends, p.polls, p.hash))
    && (p.sends == 0 ==> p.polls == 0)
  }

  function SubmitOp(registry: string, watcher: ScVal, slaId: nat, roundId: nat, hash: seq<bv8>, status: CheckStatus):
    Operation
  {
    Operation(registry, "submit_check",
              [watcher, EncodeU64(slaId), EncodeU64(roundId), EncodeBytes32(hash), EncodeStatus(status)], None)
  }

  /** SubmitCheck: for every pattern of RPC failures its trace has this shape, and it reports
      success exactly when the polled status is SUCCESS. */
  method SubmitCheck(opts: Retry.Options, net: Network, at: nat, op: Operation)
    returns (ok: bool, calls: seq<RpcCall>, ghost p: Phases)
    ensures calls == CallsOf(p) && InOrder(opts, p, op, net, at)
    ensures |calls| <= 5 * Retry.Attempts(opts)
    ensures ok <==> calls != [] && calls[|calls| - 1].Poll? && net.polling(at + |calls| - 1) == Some("SUCCESS")
  {
    hide Tried, Prepare, SendPhase, SimPhase, CallsOf, SimResultAt;
    ghost var unsigned;
    var sim, simCalls, loads;
    sim, simCalls, loads, unsigned := SimulateOp(opts, net, at, op);
    calls := simCalls;
    p := Phases(loads, |simCalls| - loads, 0, 0, 0, unsigned, unsigned, "");
    Simulating(opts, net, at, op, simCalls, p);
    if sim.None? {
      return false, calls, p;
    }
    var prepared := Prepare(op, sim.value);
    if prepared.None? {
      return false, calls, p;
    }
    var account, reloadCalls := Retried(opts, at + |calls|, LoadAccount, net.account, net.cancelled);
    TriedSome(opts, net.account, net.cancelled, at + |calls|, |reloadCalls|);
    ghost var q := p.(reloads := |reloadCalls|);
    Reloading(calls, p, q);
    calls, p := calls + reloadCalls, q;
    if account.None? {
      return false, calls, p;
    }
    var signed := Envelope(prepared.value, account.value + 1, true);
    ghost var hash;
    var sendCalls, sends;
    ok, sendCalls, sends, hash := SubmitAndPoll(opts, net, at + |calls|, signed);
    q := p.(sends := sends, polls := |sendCalls| - sends, signed := signed, hash := hash);
    Sending(opts, net, at, calls, sendCalls, p, q);
    calls, p := calls + sendCalls, q;
  }

  lemma Simulating(opts: Retry.Options, net: Network, at: nat, op: Operation, calls: seq<RpcCall>, p: Phases)
    requires SimPhase(opts, net, at, op, p.loads, p.sims, p.unsigned) && p.reloads == p.sends == p.polls == 0
    requires calls == Repeat(LoadAccount, p.loads) + Repeat(Simulate(p.unsigned), p.sims)
    ensures calls == CallsOf(p) && |calls| == p.loads + p.sims <= 2 * Retry.Attempts(opts)
    ensures calls != [] && !calls[|calls| - 1].Poll?
  {
  }

  lemma Reloading(calls: seq<RpcCall>, p: Phases, q: Phases)
    requires calls == CallsOf(p) && p.reloads == p.sends == p.polls == 0 && q.reloads > 0
    requires q == p.(reloads := q.reloads)
    ensures var calls' := calls + Repeat(LoadAccount, q.reloads);
            calls' == CallsOf(q) && |calls'| == q.loads + q.sims + q.reloads && !calls'[|calls'| - 1].Poll?
  {
  }

  lemma Sending(opts: Retry.Options, net: Network, at: nat, calls: seq<RpcCall>, sendCalls: seq<RpcCall>, p: Phases, q: Phases)
    requires calls == CallsOf(p) && |calls| == p.loads + p.sims + p.reloads && p.sends == p.polls == 0 && q.sends > 0
    requires q == p.(sends := q.sends, polls := q.polls, signed := q.signed, hash := q.hash)
    requires sendCalls == Repeat(Send(q.signed), q.sends) + Repeat(Poll(q.hash), q.polls)
    requires SendPhase(opts, net, at + |calls|, q.sends, q.polls, q.hash)
    ensures var calls' := calls + sendCalls;
            && calls' == CallsOf(q) && |calls'| <= |calls| + 2 * Retry.Attempts(opts)
            && (calls'[|calls'| - 1].Poll? <==> q.polls > 0)
  {
    hide Tried;
    TriedSome(opts, net.sending, net.cancelled, at + |calls|, q.sends);
    if q.polls > 0 {
      TriedSome(opts, net.polling, net.cancelled, at + |calls| + q.sends, q.polls);
    }
    var a := Repeat(LoadAccount, q.loads) + Repeat(Simulate(q.unsigned), q.sims) + Repeat(LoadAccount, q.reloads);
    assert CallsOf(p) == a;
    assert CallsOf(q) == a + sendCalls;
  }

  /** What the shape means call by call: every send comes after a simulation that succeeded, and
      all sends carry one and the same signed envelope, prepared from it. */
  lemma SendsFollowSimulation(opts: Retry.Options, p: Phases, op: Operation, net: Network, at: nat, i: nat)
    requires InOrder(opts, p, op, net, at)
    requires i < |CallsOf(p)| && CallsOf(p)[i].Send?
    ensures CallsOf(p)[i] == Send(p.signed) && p.signed.signed && p.unsigned.op == op && !p.unsigned.signed
    ensures exists j: nat :: j < i && CallsOf(p)[j] == Simulate(p.unsigned)
                             && net.simulation(at + j).Some? && net.simulation(at + j).value.error == ""
                             && CarriesSimulation(p.signed.op, op, net.simulation(at + j).value)
  {
    hide Tried, Prepare, SendPhase, CarriesSimulation;
    var j := p.loads + p.sims - 1;
    PrepareMeans(op, net.simulation(at + j).value, p.signed.op);
    SendRegion(p, i);
    assert CallsOf(p)[j] == Simulate(p.unsigned);
    assert net.simulation(at + j) == net.simulation(at + p.loads + p.sims - 1);
  }

  /** And what it promises: when every call is answered at once, every simulation prepares and
      every send is accepted, the check is sent, once, and polled. */
  lemma AnsweredIsSent(opts: Retry.Options, p: Phases, op: Operation, net: Network, at: nat)
    requires InOrder(opts, p, op, net, at)
    requires forall n: nat :: net.account(n).Some? && net.sending(n).Some? && net.polling(n).Some?
    requires forall n: nat :: Accepted(net.simulation(n)).Some? && Prepare(op, net.simulation(n).value).Some?
    requires forall n: nat :: net.sending(n).value.status != "ERROR"
    ensures p.loads == p.sims == p.reloads == p.sends == p.polls == 1
    ensures CallsOf(p) == [LoadAccount, Simulate(p.unsigned), LoadAccount, Send(p.signed), Poll(p.hash)]
  {
    hide Prepare;
    AnsweredOnce(opts, net.account, net.cancelled, at, p.loads);
    AnsweredOnce(opts, net.simulation, net.cancelled, at + 1, p.sims);
    AnsweredOnce(opts, net.account, net.cancelled, at + 2, p.reloads);
    AnsweredOnce(opts, net.sending, net.cancelled, at + 3, p.sends);
    AnsweredOnce(opts, net.polling, net.cancelled, at + 4, p.polls);
  }

  lemma AnsweredOnce<T(!new)>(opts: Retry.Options, reply: nat -> Option<T>, cancelled: nat -> bool, at: nat, n: nat)
    requires reply(at).Some?
    ensures Tried(opts, reply, cancelled, at, n) ==> n == 1
  {
  }

  lemma SendRegion(p: Phases, i: nat)
    requires i < |CallsOf(p)| && CallsOf(p)[i].Send?
    ensures p.sends > 0 && CallsOf(p)[i] == Send(p.signed) && i >= p.loads + p.sims + p.reloads
  {
    var a := Repeat(LoadAccount, p.loads);
    var b := a + Repeat(Simulate(p.unsigned), p.sims);
    var c := b + Repeat(LoadAccount, p.reloads);
    var d := c + Repeat(Send(p.signed), p.sends);
    assert CallsOf(p) == d + Repeat(Poll(p.hash), p.polls);
  }

  // ------------------------------------------------------------- one round

  /** A call that changes nothing on the network. */
  predicate IsRead(call: RpcCall) {
    call.LoadAccount? || call.Simulate?
  }

  /** The value a simulated read returns. */
  function ReturnValue(sim: Option<SimResponse>): Option<Native> {
    if sim.None? || |sim.value.results| == 0 || sim.value.results[0].returnValue.None?
       || sim.value.results[0].returnValue.value.Undecodable? then None
    else
      var decoded := Decode(sim.value.results[0].returnValue.value.value);
      if decoded.Success? then Some(decoded.value) else None
  }

  /** The calls of one read, and the value they yield. */
  ghost predicate ReadTrace(opts: Retry.Options, net: Network, at: nat, op: Operation, calls: seq<RpcCall>,
                            value: Option<Native>, loads: nat, tx: Envelope)
  {
    && loads <= |calls| && SimPhase(opts, net, at, op, loads, |calls| - loads, tx)
    && calls == Repeat(LoadAccount, loads) + Repeat(Simulate(tx), |calls| - loads)
    && value == ReturnValue(SimResultAt(net, at, loads, |calls| - loads))
  }

  ghost predicate Reads(opts: Retry.Options, net: Network, at: nat, op: Operation, calls: seq<RpcCall>, value: Option<Native>) {
    exists loads: nat, tx :: ReadTrace(opts, net, at, op, calls, value, loads, tx)
  }

  /** simulateReadOnly: the decoded return value of a read. */
  method ReadContract(opts: Retry.Options, net: Network, at: nat, op: Operation)
    returns (value: Option<Native>, calls: seq<RpcCall>)
    ensures Reads(opts, net, at, op, calls, value)
  {
    hide SimPhase, Decode, SimResultAt;
    var sim, simCalls, loads, tx := SimulateOp(opts, net, at, op);
    calls := simCalls;
    if sim.None? || |sim.value.results| == 0 || sim.value.results[0].returnValue.None? {
      value := None;
    } else {
      var xdr := sim.value.results[0].returnValue.value;
      if xdr.Undecodable? {
        value := None;
      } else {
        var decoded := Decode(xdr.value);
        value := if decoded.Success? then Some(decoded.value) else None;
      }
    }
    assert ReadTrace(opts, net, at, op, calls, value, loads, tx);
  }

  /** A read sends nothing and stays within its attempts, and what it yields is what a simulation
      of that very operation in its trace decodes to. */
  lemma ReadMeans(opts: Retry.Options, net: Network, at: nat, op: Operation, calls: seq<RpcCall>, value: Option<Native>)
    requires Reads(opts, net, at, op, calls, value)
    ensures |calls| <= 2 * Retry.Attempts(opts) && forall i :: 0 <= i < |calls| ==> IsRead(calls[i])
    ensures value.Some? ==> ReadAs(calls, net, at, |calls| - 1, op, value.value)
  {
    hide Decode;
    var loads: nat, tx :| ReadTrace(opts, net, at, op, calls, value, loads, tx);
    hide Tried;
    TriedSome(opts, net.account, net.cancelled, at, loads);
    if |calls| > loads {
      TriedSome(opts, net.simulation, net.cancelled, at + loads, |calls| - loads);
      assert at + loads + (|calls| - loads) - 1 == at + (|calls| - 1);
    }
  }

  /** The read yields the value one phase after the other allows: with the account and the
      simulation answered at once, that is what the one simulation returns. */
  lemma AnsweredIsRead(opts: Retry.Options, net: Network, at: nat, op: Operation, calls: seq<RpcCall>, value: Option<Native>)
    requires Reads(opts, net, at, op, calls, value)
    requires net.account(at).Some? && net.simulation(at + 1).Some?
    ensures |calls| == 2 && value == ReturnValue(Accepted(net.simulation(at + 1)))
  {
    hide Decode, ReturnValue;
    var loads: nat, tx :| ReadTrace(opts, net, at, op, calls, value, loads, tx);
    AnsweredOnce(opts, net.account, net.cancelled, at, loads);
    AnsweredOnce(opts, net.simulation, net.cancelled, at + 1, |calls| - loads);
  }

  /** Call i of a trace is a simulation of `op` whose answer decodes to `value`. */
  ghost predicate ReadAs(calls: seq<RpcCall>, net: Network, at: nat, i: int, op: Operation, value: Native) {
    && 0 <= i < |calls| && calls[i].Simulate? && calls[i].tx.op == op
    && net.simulation(at + i).Some? && net.simulation(at + i).value.error == ""
    && |net.simulation(at + i).value.results| > 0
    && var r := net.simulation(at + i).value.results[0].returnValue;
       r.Some? && r.value.Decoded? && Decode(r.value.value) == Success(value)
  }

  lemma ReadKept(calls: seq<RpcCall>, more: seq<RpcCall>, net: Network, at: nat, i: int, op: Operation, value: Native)
    requires ReadAs(calls, net, at, i, op, value)
    ensures ReadAs(calls + more, net, at, i, op, value)
  {
  }

  lemma ReadShifted(before: seq<RpcCall>, calls: seq<RpcCall>, net: Network, at: nat, i: int, op: Operation, value: Native)
    requires ReadAs(calls, net, at + |before|, i, op, value)
    ensures ReadAs(before + calls, net, at, |before| + i, op, value)
  {
    assert (before + calls)[|before| + i] == calls[i];
  }

  datatype Config = Config(registry: string, slaVault: string, watcher: ScVal, slaId: nat, endpointHash: seq<bv8>)

  function CurrentRoundOp(cfg: Config): Operation {
    Operation(cfg.registry, "get_current_round", [], None)
  }

  function HasVotedOp(cfg: Config, roundId: nat): Operation {
    Operation(cfg.registry, "has_watcher_voted", [EncodeU64(cfg.slaId), EncodeU64(roundId), cfg.watcher], None)
  }

  function GetSlaOp(cfg: Config): Operation {
    Operation(cfg.slaVault, "get_sla", [EncodeU64(cfg.slaId)], None)
  }

  /** The committed hash in a decoded get_sla answer. */
  function CommittedHash(v: Native): Option<seq<bv8>> {
    if v.NMap? && "endpoint_hash" in v.fields && v.fields["endpoint_hash"].NBytes?
       && |v.fields["endpoint_hash"].bytes| == 32
    then Some(v.fields["endpoint_hash"].bytes) else None
  }

  /** Where the first two reads of a round end in its trace, and what the three reads yield. */
  datatype Readings = Readings(first: nat, second: nat, current: Option<Native>, voted: Option<Native>, sla: Option<Native>)

  predicate Unvoted(voted: Option<Native>) {
    voted == Some(NBool(false))
  }

  predicate Committed(cfg: Config, sla: Option<Native>) {
    sla.Some? && CommittedHash(sla.value) == Some(cfg.endpointHash)
  }

  /** The three reads, each made exactly when the one before allows it, and the round they clear:
      the contract's round, when this watcher has not voted in it and the SLA is committed to the
      configured endpoint. */
  ghost predicate Cleared(opts: Retry.Options, net: Network, at: nat, cfg: Config, calls: seq<RpcCall>, r: Readings,
                          round: Option<nat>)
  {
    && r.first <= r.second <= |calls|
    && Reads(opts, net, at, CurrentRoundOp(cfg), calls[..r.first], r.current)
    && if r.current.None? || !r.current.value.NUint64? then r.first == r.second == |calls| && round.None?
       else
         && Reads(opts, net, at + r.first, HasVotedOp(cfg, r.current.value.u64), calls[r.first..r.second], r.voted)
         && if !Unvoted(r.voted) then r.second == |calls| && round.None?
            else
              && Reads(opts, net, at + r.second, GetSlaOp(cfg), calls[r.second..], r.sla)
              && round == if Committed(cfg, r.sla) then Some(r.current.value.u64) else None
  }

  /** The three reads of runOneRound and the checks on their answers; nothing is sent. */
  method Preflight(opts: Retry.Options, net: Network, at: nat, cfg: Config)
    returns (round: Option<nat>, calls: seq<RpcCall>, ghost r: Readings)
    ensures Cleared(opts, net, at, cfg, calls, r, round)
    ensures |calls| <= 6 * Retry.Attempts(opts) && forall n :: 0 <= n < |calls| ==> IsRead(calls[n])
  {
    round, calls, r := ReadRound(opts, net, at, cfg);
    ClearedMeans(opts, net, at, cfg, calls, r, round);
  }

  method ReadRound(opts: Retry.Options, net: Network, at: nat, cfg: Config)
    returns (round: Option<nat>, calls: seq<RpcCall>, ghost r: Readings)
    ensures Cleared(opts, net, at, cfg, calls, r, round)
  {
    hide Decode, Reads;
    round := None;
    var current, roundCalls := ReadContract(opts, net, at, CurrentRoundOp(cfg));
    calls := roundCalls;
    r := Readings(|calls|, |calls|, current, None, None);
    assert calls[..r.first] == roundCalls;
    if current.None? || !current.value.NUint64? {
      return;
    }
    var roundId := current.value.u64;
    var voted, voteCalls := ReadContract(opts, net, at + |roundCalls|, HasVotedOp(cfg, roundId));
    calls := roundCalls + voteCalls;
    r := r.(second := |calls|, voted := voted);
    assert calls[..r.first] == roundCalls && calls[r.first..r.second] == voteCalls;
    if voted.None? || !voted.value.NBool? || voted.value.b {
      return;
    }
    var answer, slaCalls := ReadContract(opts, net, at + |roundCalls + voteCalls|, GetSlaOp(cfg));
    calls := roundCalls + voteCalls + slaCalls;
    r := r.(sla := answer);
    assert calls[..r.first] == roundCalls && calls[r.first..r.second] == voteCalls && calls[r.second..] == slaCalls;
    if answer.None? {
      return;
    }
    var committed := CommittedHash(answer.value);
    if committed.None? || committed.value != cfg.endpointHash {
      return;
    }
    round := Some(roundId);
  }

  /** The get_sla answer commits the SLA to the configured endpoint. */
  ghost predicate CommitsTo(cfg: Config, sla: Native) {
    sla.NMap? && "endpoint_hash" in sla.fields && sla.fields["endpoint_hash"] == NBytes(cfg.endpointHash)
    && |cfg.endpointHash| == 32
  }

  lemma CommittedMeans(cfg: Config, sla: Native)
    ensures (Committed(cfg, Some(sla)) <==> CommitsTo(cfg, sla)) && !Committed(cfg, None)
  {
  }

  /** Reads that lie in a trace, in this order: the contract's round, no vote yet in it, and an SLA
      committed to the configured endpoint. */
  ghost predicate Evidence(calls: seq<RpcCall>, net: Network, at: nat, cfg: Config, roundId: nat, sla: Native,
                           i: int, j: int, k: int)
  {
    var slaId, round := ScvU64(Some(cfg.slaId)), ScvU64(Some(roundId));
    && i < j < k
    && ReadAs(calls, net, at, i, Operation(cfg.registry, "get_current_round", [], None), NUint64(roundId))
    && ReadAs(calls, net, at, j, Operation(cfg.registry, "has_watcher_voted", [slaId, round, cfg.watcher], None), NBool(false))
    && ReadAs(calls, net, at, k, Operation(cfg.slaVault, "get_sla", [slaId], None), sla) && CommitsTo(cfg, sla)
  }

  /** What clearing a round means for its trace: nothing is sent, and a cleared round leaves its
      evidence there. */
  lemma ClearedMeans(opts: Retry.Options, net: Network, at: nat, cfg: Config, calls: seq<RpcCall>, r: Readings,
                     round: Option<nat>)
    requires Cleared(opts, net, at, cfg, calls, r, round)
    ensures |calls| <= 6 * Retry.Attempts(opts) && forall n :: 0 <= n < |calls| ==> IsRead(calls[n])
    ensures round.Some? ==>
              && r.sla.Some?
              && Evidence(calls, net, at, cfg, round.value, r.sla.value, r.first - 1, r.second - 1, |calls| - 1)
  {
    hide Reads, Decode, ReadAs, IsRead, CommittedHash;
    var a, b, c := calls[..r.first], calls[r.first..r.second], calls[r.second..];
    assert calls == a + b + c;
    ReadMeans(opts, net, at, CurrentRoundOp(cfg), a, r.current);
    if r.current.Some? && r.current.value.NUint64? {
      ReadMeans(opts, net, at + r.first, HasVotedOp(cfg, r.current.value.u64), b, r.voted);
      if Unvoted(r.voted) {
        ReadMeans(opts, net, at + r.second, GetSlaOp(cfg), c, r.sla);
      }
    }
    ReadsOnlyJoined(a, b, c);
    if round.Some? {
      CommittedMeans(cfg, r.sla.value);
      EvidenceJoined(net, at, cfg, a, b, c, round.value, r.sla.value);
    }
  }

  /** The n-th call, a simulation, is answered without an error by a result that decodes to
      `value`. */
  ghost predicate Answers(net: Network, n: nat, value: Native) {
    && net.simulation(n).Some? && net.simulation(n).value.error == "" && |net.simulation(n).value.results| > 0
    && var r := net.simulation(n).value.results[0].returnValue;
       r.Some? && r.value.Decoded? && Decode(r.value.value) == Success(value)
  }

  lemma AnswersMeans(net: Network, n: nat, value: Native)
    ensures ReturnValue(Accepted(net.simulation(n))) == Some(value) <==> Answers(net, n, value)
  {
    hide Decode;
  }

  /** When the network answers every call at once, round u is cleared exactly when the first read is
      answered with u, the second with "not voted" and the third with an SLA committed to the
      configured endpoint; otherwise no round is. */
  lemma AnsweredRoundClears(opts: Retry.Options, net: Network, at: nat, cfg: Config, calls: seq<RpcCall>, r: Readings,
                            round: Option<nat>)
    requires Cleared(opts, net, at, cfg, calls, r, round)
    requires forall n: nat :: net.account(n).Some? && net.simulation(n).Some?
    ensures forall u: nat :: round == Some(u) <==>
              && Answers(net, at + 1, NUint64(u)) && Answers(net, at + 3, NBool(false))
              && exists sla :: Answers(net, at + 5, sla) && CommitsTo(cfg, sla)
  {
    hide Reads, Decode, ReturnValue, Accepted, Committed, CommitsTo, Answers;
    AnsweredIsRead(opts, net, at, CurrentRoundOp(cfg), calls[..r.first], r.current);
    if r.current.Some? && r.current.value.NUint64? {
      AnsweredIsRead(opts, net, at + r.first, HasVotedOp(cfg, r.current.value.u64), calls[r.first..r.second], r.voted);
      if Unvoted(r.voted) {
        AnsweredIsRead(opts, net, at + r.second, GetSlaOp(cfg), calls[r.second..], r.sla);
      }
    }
    AnswersMeans(net, at + 3, NBool(false));
    forall u: nat
      ensures round == Some(u) <==>
              && Answers(net, at + 1, NUint64(u)) && Answers(net, at + 3, NBool(false))
              && exists sla :: Answers(net, at + 5, sla) && CommitsTo(cfg, sla)
    {
      AnswersMeans(net, at + 1, NUint64(u));
      CommittedMeans(cfg, NNil);
      if round == Some(u) {
        CommittedMeans(cfg, r.sla.value);
        AnswersMeans(net, at + 5, r.sla.value);
      }
      if sla :| Answers(net, at + 5, sla) && CommitsTo(cfg, sla) {
        CommittedMeans(cfg, sla);
        AnswersMeans(net, at + 5, sla);
      }
    }
  }

  lemma ReadsOnlyJoined(a: seq<RpcCall>, b: seq<RpcCall>, c: seq<RpcCall>)
    requires forall n :: 0 <= n < |a| ==> IsRead(a[n])
    requires b == [] || forall n :: 0 <= n < |b| ==> IsRead(b[n])
    requires c == [] || forall n :: 0 <= n < |c| ==> IsRead(c[n])
    ensures forall n :: 0 <= n < |a + b + c| ==> IsRead((a + b + c)[n])
  {
  }

  lemma EvidenceJoined(net: Network, at: nat, cfg: Config, a: seq<RpcCall>, b: seq<RpcCall>, c: seq<RpcCall>,
                       roundId: nat, sla: Native)
    requires ReadAs(a, net, at, |a| - 1, CurrentRoundOp(cfg), NUint64(roundId))
    requires ReadAs(b, net, at + |a|, |b| - 1, HasVotedOp(cfg, roundId), NBool(false))
    requires ReadAs(c, net, at + |a + b|, |c| - 1, GetSlaOp(cfg), sla) && CommitsTo(cfg, sla)
    ensures Evidence(a + b + c, net, at, cfg, roundId, sla, |a| - 1, |a| + |b| - 1, |a + b + c| - 1)
  {
    hide CommitsTo;
    ReadNonEmpty(b, net, at + |a|, |b| - 1, HasVotedOp(cfg, roundId), NBool(false));
    ReadNonEmpty(c, net, at + |a + b|, |c| - 1, GetSlaOp(cfg), sla);
    hide ReadAs;
    ReadKept(a, b, net, at, |a| - 1, CurrentRoundOp(cfg), NUint64(roundId));
    ReadKept(a + b, c, net, at, |a| - 1, CurrentRoundOp(cfg), NUint64(roundId));
    ReadShifted(a, b, net, at, |b| - 1, HasVotedOp(cfg, roundId), NBool(false));
    ReadKept(a + b, c, net, at, |a| + |b| - 1, HasVotedOp(cfg, roundId), NBool(false));
    ReadShifted(a + b, c, net, at, |c| - 1, GetSlaOp(cfg), sla);
  }

  lemma ReadNonEmpty(calls: seq<RpcCall>, net: Network, at: nat, i: int, op: Operation, value: Native)
    requires ReadAs(calls, net, at, i, op, value)
    ensures 0 <= i < |calls|
  {
  }

  function VoteOp(cfg: Config, roundId: nat, healthDown: bool): Operation {
    SubmitOp(cfg.registry, cfg.watcher, cfg.slaId, roundId, cfg.endpointHash, if healthDown then StatusDown else StatusUp)
  }

  /** The operation is this watcher's vote on the SLA for the round: Down if the endpoint was found
      down, else Up. */
  ghost predicate IsVote(op: Operation, cfg: Config, roundId: nat, healthDown: bool) {
    && op.contract == cfg.registry && op.name == "submit_check"
    && op.args == [cfg.watcher, ScvU64(Some(cfg.slaId)), ScvU64(Some(roundId)), ScvBytes(Some(cfg.endpointHash)),
                   ScvVec([ScvSymbol(Some(if healthDown then "Down" else "Up"))])]
  }

  lemma VoteMeans(op: Operation, cfg: Config, roundId: nat, healthDown: bool)
    requires op.(simulated := None) == VoteOp(cfg, roundId, healthDown)
    ensures IsVote(op, cfg, roundId, healthDown)
  {
  }

  /** runOneRound, given the health check's verdict: the reads, and then, exactly when they clear a
      round, the submission of this watcher's vote for it. */
  method RunOneRound(opts: Retry.Options, net: Network, at: nat, cfg: Config, healthDown: bool)
    returns (submitted: bool, calls: seq<RpcCall>, ghost reading: nat, ghost r: Readings, ghost round: Option<nat>,
             ghost p: Phases)
    ensures reading <= |calls| && Cleared(opts, net, at, cfg, calls[..reading], r, round)
    ensures round.None? ==> reading == |calls| && !submitted
    ensures round.Some? ==>
              && calls[reading..] == CallsOf(p)
              && InOrder(opts, p, VoteOp(cfg, round.value, healthDown), net, at + reading)
    ensures submitted <==> calls != [] && calls[|calls| - 1].Poll? && net.polling(at + |calls| - 1) == Some("SUCCESS")
    ensures forall n :: 0 <= n < |calls| && calls[n].Send? ==>
              round.Some? && calls[n].tx.signed && IsVote(calls[n].tx.op, cfg, round.value, healthDown)
    ensures |calls| <= 11 * Retry.Attempts(opts)
  {
    hide Cleared, InOrder, CallsOf;
    var cleared, readCalls;
    cleared, readCalls, r := Preflight(opts, net, at, cfg);
    ClearedMeans(opts, net, at, cfg, readCalls, r, cleared);
    reading, round := |readCalls|, cleared;
    calls, submitted := readCalls, false;
    assert calls[..reading] == readCalls;
    if cleared.None? {
      p := Phases(0, 0, 0, 0, 0, Envelope(GetSlaOp(cfg), 0, false), Envelope(GetSlaOp(cfg), 0, false), "");
      return;
    }
    var status := if healthDown then StatusDown else StatusUp;
    var op := SubmitOp(cfg.registry, cfg.watcher, cfg.slaId, cleared.value, cfg.endpointHash, status);
    var submitCalls;
    submitted, submitCalls, p := SubmitCheck(opts, net, at + |readCalls|, op);
    calls := readCalls + submitCalls;
    assert calls[..reading] == readCalls && calls[reading..] == submitCalls;
    if submitCalls == [] {
      assert calls == readCalls;
    }
    forall n | 0 <= n < |calls| && calls[n].Send?
      ensures calls[n].tx.signed && IsVote(calls[n].tx.op, cfg, cleared.value, healthDown)
    {
      RoundSendsOnlyCleared(opts, net, at, cfg, healthDown, calls, reading, r, round, p, n);
    }
  }

  /** Safety of a round, from that shape: whatever is sent, however often, is one signed vote for
      the very round the evidence before it speaks of, with the data and the authorization that a
      simulation of that vote supplied. */
  lemma RoundSendsOnlyCleared(opts: Retry.Options, net: Network, at: nat, cfg: Config, healthDown: bool, calls: seq<RpcCall>,
                              reading: nat, r: Readings, round: Option<nat>, p: Phases, n: nat)
    requires reading <= |calls| && Cleared(opts, net, at, cfg, calls[..reading], r, round)
    requires round.None? ==> reading == |calls|
    requires round.Some? ==>
               && calls[reading..] == CallsOf(p)
               && InOrder(opts, p, VoteOp(cfg, round.value, healthDown), net, at + reading)
    requires n < |calls| && calls[n].Send?
    ensures round.Some? && r.sla.Some? && calls[n] == Send(p.signed) && p.signed.signed
    ensures IsVote(p.signed.op, cfg, round.value, healthDown)
    ensures exists j: nat :: reading <= j < n && calls[j].Simulate? && IsVote(calls[j].tx.op, cfg, round.value, healthDown)
                             && net.simulation(at + j).Some?
                             && CarriesSimulation(p.signed.op, calls[j].tx.op, net.simulation(at + j).value)
    ensures Evidence(calls[..n], net, at, cfg, round.value, r.sla.value, r.first - 1, r.second - 1, reading - 1)
  {
    hide Cleared, CallsOf, InOrder, Evidence, Prepare;
    ClearedMeans(opts, net, at, cfg, calls[..reading], r, round);
    assert forall m :: 0 <= m < reading ==> calls[m] == calls[..reading][m];
    assert calls[reading..][n - reading] == calls[n];
    var op := VoteOp(cfg, round.value, healthDown);
    SendsFollowSimulation(opts, p, op, net, at + reading, n - reading);
    var j: nat :| j < n - reading && CallsOf(p)[j] == Simulate(p.unsigned) && net.simulation(at + reading + j).Some?
                  && CarriesSimulation(p.signed.op, op, net.simulation(at + reading + j).value);
    assert calls[reading + j] == calls[reading..][j];
    assert net.simulation(at + (reading + j)) == net.simulation(at + reading + j);
    hide CarriesSimulation, IsVote;
    VoteMeans(op, cfg, round.value, healthDown);
    SignedOperation(opts, p, VoteOp(cfg, round.value, healthDown), net, at + reading, n - reading);
    VoteMeans(p.signed.op, cfg, round.value, healthDown);
    EvidenceBefore(calls, reading, n, net, at, cfg, round.value, r.sla.value, r.first - 1, r.second - 1, reading - 1);
  }

  /** What is signed is the operation asked for, with what the simulation supplied. */
  lemma SignedOperation(opts: Retry.Options, p: Phases, op: Operation, net: Network, at: nat, i: nat)
    requires InOrder(opts, p, op, net, at) && op.simulated.None?
    requires i < |CallsOf(p)| && CallsOf(p)[i].Send?
    ensures p.signed.op.(simulated := None) == op
  {
    hide SimPhase, SendPhase, SimResultAt;
    SendRegion(p, i);
  }

  lemma EvidenceBefore(calls: seq<RpcCall>, reading: nat, n: nat, net: Network, at: nat, cfg: Config,
                       roundId: nat, sla: Native, i: int, j: int, k: int)
    requires reading <= n <= |calls| && Evidence(calls[..reading], net, at, cfg, roundId, sla, i, j, k)
    ensures Evidence(calls[..n], net, at, cfg, roundId, sla, i, j, k)
  {
    hide ReadAs, CommitsTo;
    assert calls[..n] == calls[..reading] + calls[reading..n];
    ReadKept(calls[..reading], calls[reading..n], net, at, i, CurrentRoundOp(cfg), NUint64(roundId));
    ReadKept(calls[..reading], calls[reading..n], net, at, j, HasVotedOp(cfg, roundId), NBool(false));
    ReadKept(calls[..reading], calls[reading..n], net, at, k, GetSlaOp(cfg), sla);
  }
}
