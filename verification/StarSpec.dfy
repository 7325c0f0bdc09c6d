/** What each operation of the star ledger does to its memory and its log
    (bridge/src/star_ledger.rs). Clock readings and uuids are inputs. */
module StarSpec {
  import opened Text
  import opened Order
  import opened StarEvents

  /** The memory of a ledger and the log it appends to. */
  datatype World = World(mem: State, log: seq<Line>)

  datatype SpendError =
    | Insufficient(have: nat, need: nat)
    | AlreadyApplied(fromBalance: nat)
    | EmptySpend

  datatype Outcome = Done(event: StarEvent, balance: nat) | Failed(error: SpendError)

  /** A fresh uuid and the current time, as the operation reads them. */
  datatype Stamp = Stamp(id: string, ts: nat)

  function Balance(s: State, user: string): nat {
    if user == "" then 0 else Get(s.balances, user)
  }

  function MakeEvent(h: Hash, s: State, kind: string, from: string, to: string, amount: nat, reason: string,
                     session: string, opId: string, stamp: Stamp): StarEvent
  {
    var e := StarEvent(s.seqNo + 1, stamp.id, kind, from, to, amount, reason, session, opId, stamp.ts, s.tip, "");
    e.(hash := h(Payload(e)))
  }

  function Append(w: World, e: StarEvent): World {
    World(Apply(w.mem, e), w.log + [Entry(e)])
  }

  function MintFrom(h: Hash, w: World, from: string, to: string, amount: nat, reason: string, session: string,
                    stamp: Stamp): (World, Outcome)
  {
    if to == "" || amount == 0 then
      var nothing := StarEvent(w.mem.seqNo, "", KIND_MINT, from, to, 0, reason, session, "", stamp.ts,
                               w.mem.tip, w.mem.tip);
      (w, Done(nothing, Balance(w.mem, to)))
    else
      var e := MakeEvent(h, w.mem, KIND_MINT, from, to, amount, reason, session, "", stamp);
      (Append(w, e), Done(e, Balance(Apply(w.mem, e), to)))
  }

  function Adjust(h: Hash, w: World, to: string, amount: nat, reason: string, stamp: Stamp): (World, Outcome) {
    if to == "" || amount == 0 then MintFrom(h, w, "", to, 0, reason, "", stamp) else
      var e := MakeEvent(h, w.mem, KIND_ADJUST, "", to, amount, reason, "", "", stamp);
      (Append(w, e), Done(e, Balance(Apply(w.mem, e), to)))
  }

  function Spend(h: Hash, w: World, from: string, to: string, amount: nat, reason: string, opId: string,
                 session: string, stamp: Stamp): (World, Outcome)
  {
    var op := Trim(opId);
    var have := Balance(w.mem, from);
    if from == "" || amount == 0 then (w, Failed(EmptySpend))
    else if op != "" && op in w.mem.spentOps then (w, Failed(AlreadyApplied(have)))
    else if have < amount then (w, Failed(Insufficient(have, amount)))
    else
      var e := MakeEvent(h, w.mem, KIND_SPEND, from, to, amount, reason, session, op, stamp);
      (Append(w, e), Done(e, Balance(Apply(w.mem, e), from)))
  }

  function Take(s: string, n: nat): string {
    if |s| <= n then s else s[..n]
  }

  function Min(a: nat, b: nat): nat {
    if a <= b then a else b
  }

  function Clawback(h: Hash, w: World, userId: string, balanceBurn: nat, trustBurn: nat, reason: string,
                    opId: string, stamp: Stamp): (World, Outcome)
  {
    var uid := Trim(userId);
    var op := Trim(opId);
    var have := Balance(w.mem, uid);
    if uid == "" || (balanceBurn == 0 && trustBurn == 0) then (w, Failed(EmptySpend))
    else if op != "" && op in w.mem.spentOps then (w, Failed(AlreadyApplied(have)))
    else
      var note := if reason == "" then "clawback" else Take(reason, 96);
      var e := MakeEvent(h, w.mem, KIND_CLAWBACK, uid, "", Min(balanceBurn, have), note,
                         "trust:" + Dec(trustBurn), op, stamp);
      (Append(w, e), Done(e, Balance(Apply(w.mem, e), uid)))
  }

  /** The users a legacy count map seeds. */
  function LegacyUsers(legacy: map<string, nat>): set<string> {
    set k | k in legacy && k != "" && legacy[k] > 0
  }

  function GenesisEvent(h: Hash, s: State, user: string, amount: nat, stamp: Stamp): StarEvent {
    MakeEvent(h, s, KIND_ADJUST, "", user, amount, "genesis_snapshot", "", "", stamp)
  }

  /** The world after seeding the given users in order. */
  function Genesis(h: Hash, w: World, legacy: map<string, nat>, users: seq<string>, ids: nat -> string,
                   ts: nat): World
    requires forall u | u in users :: u in legacy
  {
    if users == [] then w else
      var n := |users| - 1;
      var before := Genesis(h, w, legacy, users[..n], ids, ts);
      Append(before, GenesisEvent(h, before.mem, users[n], legacy[users[n]], Stamp(ids(n), ts)))
  }

  /** Replay the log; when nothing was replayed, seed from the legacy map. */
  ghost function Load(h: Hash, log: seq<Line>, legacy: map<string, nat>, ids: nat -> string, ts: nat): World {
    var w := World(Replay(h, EMPTY, log), log);
    if w.mem.seqNo == 0 then Genesis(h, w, legacy, SortedKeys(LegacyUsers(legacy)), ids, ts) else w
  }
}
