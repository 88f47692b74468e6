/** The registry every process shares: endpoints, the messages waiting for each, and the
    numbers that name them.  Each relation below is one section under the registry's lock.
 */
module BinderRegistry {
  import Nodes = BinderNodes

  const MAX_EP := 512
  const MSG_MAX := 32

  datatype Ep = Ep(used: bool, id: nat, refs: nat, pid: int, isMgr: bool, ctx: string)

  /** A message.  `target` is the handle a call is on and `total` the size of what it carries.  Two
      fields are history, which the source does not keep: `want` is the endpoint its sender looked
      up, and `proc` the process of the thread that made the call, or that the reply is owed to. */
  datatype Msg = Msg(used: bool, isReply: bool, num: nat, senderEp: nat, target: nat, cookie: nat, replyTid: nat,
                     oneWay: bool, total: nat, want: nat, proc: nat)

  const NO_MESSAGE := Msg(false, false, 0, 0, 0, 0, 0, false, 0, 0, 0)

  /** q holds MSG_MAX places for each endpoint slot, one slot after another. */
  datatype Reg = Reg(ep: seq<Ep>, q: seq<Msg>, nextId: nat, nextSeq: nat)

  function SlotOf(k: nat): nat {
    k / MSG_MAX
  }

  ghost predicate Shaped(r: Reg) {
    |r.ep| == MAX_EP && |r.q| == MAX_EP * MSG_MAX
  }

  // ---- the sections ----

  /** The slots of processes that are gone are given up. */
  function Reaped(ep: seq<Ep>, dead: set<int>): (e: seq<Ep>)
    ensures |e| == |ep|
  {
    seq(|ep|, i requires 0 <= i < |ep| =>
      if ep[i].used && ep[i].pid > 0 && ep[i].pid in dead then ep[i].(used := false) else ep[i])
  }

  predicate AllUsed(ep: seq<Ep>) {
    forall i :: 0 <= i < |ep| ==> ep[i].used
  }

  /** Slot s is the first that is free. */
  predicate FirstFree(ep: seq<Ep>, s: nat) {
    s < |ep| && !ep[s].used && forall i :: 0 <= i < s ==> ep[i].used
  }

  /** What open has to choose from. */
  function Available(ep: seq<Ep>, dead: set<int>): (e: seq<Ep>)
    ensures |e| == |ep|
  {
    if AllUsed(ep) then Reaped(ep, dead) else ep
  }

  /** q with the places of slot s empty. */
  ghost predicate Emptied(q: seq<Msg>, q': seq<Msg>, s: nat) {
    |q'| == |q| && forall k :: 0 <= k < |q| ==> if SlotOf(k) == s then !q'[k].used else q'[k] == q[k]
  }

  ghost predicate Opens(r: Reg, r': Reg, s: nat, pid: int, ctx: string, dead: set<int>) {
    var ep := Available(r.ep, dead);
    && FirstFree(ep, s)
    && r'.ep == ep[s := Ep(true, r.nextId, 1, pid, false, ctx)]
    && Emptied(r.q, r'.q, s)
    && r'.nextId == r.nextId + 1 && r'.nextSeq == r.nextSeq
  }

  /** Slot s changes to e, which is the same endpoint. */
  ghost predicate Alters(r: Reg, r': Reg, s: nat, e: Ep) {
    s < |r.ep| && r' == r.(ep := r.ep[s := e])
  }

  ghost predicate Drops(r: Reg, r': Reg, s: nat) {
    s < |r.ep| && Alters(r, r', s, r.ep[s].(used := false))
  }

  ghost predicate Adopts(r: Reg, r': Reg, s: nat) {
    s < |r.ep| && r.ep[s].used && Alters(r, r', s, r.ep[s].(refs := r.ep[s].refs + 1))
  }

  /** One descriptor fewer, and the last one takes the endpoint with it. */
  ghost predicate Closes(r: Reg, r': Reg, s: nat) {
    && s < |r.ep| && r.ep[s].used
    && var refs := if r.ep[s].refs > 0 then r.ep[s].refs - 1 else 0;
    Alters(r, r', s, r.ep[s].(refs := refs, used := refs > 0))
  }

  predicate Rival(e: Ep, id: nat, ctx: string) {
    e.used && e.isMgr && e.id != id && e.ctx == ctx
  }

  ghost predicate Manages(r: Reg, r': Reg, s: nat) {
    && s < |r.ep| && r.ep[s].used
    && (forall i :: 0 <= i < |r.ep| ==> !Rival(r.ep[i], r.ep[s].id, r.ep[s].ctx))
    && Alters(r, r', s, r.ep[s].(isMgr := true))
  }

  /** m is left at place k, the first free one of its slot, under the next number. */
  ghost predicate Posts(r: Reg, r': Reg, k: nat, m: Msg) {
    && k < |r.q| && !r.q[k].used && (forall j :: SlotOf(k) * MSG_MAX <= j < k ==> r.q[j].used)
    && r' == r.(q := r.q[k := m.(used := true, num := r.nextSeq)], nextSeq := r.nextSeq + 1)
  }

  /** Place k is given back if its endpoint is still the one that was to be woken, and the
      endpoint too if its process is gone. */
  ghost predicate Withdraws(r: Reg, r': Reg, k: nat, id: nat, dead: set<int>) {
    && k < |r.q| && SlotOf(k) < |r.ep|
    && var s := SlotOf(k);
    if r.ep[s].used && r.ep[s].id == id then
      r' == r.(q := r.q[k := r.q[k].(used := false)],
               ep := r.ep[s := r.ep[s].(used := !(r.ep[s].pid > 0 && r.ep[s].pid in dead))])
    else r' == r
  }

  /** Thread `me` may take m. */
  predicate Eligible(m: Msg, me: nat) {
    m.used && !(m.isReply && m.replyTid != 0 && m.replyTid != me)
  }

  ghost predicate Collects(r: Reg, r': Reg, k: nat, id: nat, me: nat) {
    && k < |r.q| && SlotOf(k) < |r.ep| && r.ep[SlotOf(k)].used && r.ep[SlotOf(k)].id == id
    && Eligible(r.q[k], me)
    && r' == r.(q := r.q[k := r.q[k].(used := false)])
  }

  // ---- what a handle reaches ----

  /** Slot s is where a transaction on a handle is sent: the manager of its context for handle 0, or
      the owner of the object it names if that is in the same context. */
  predicate Reaches(r: Reg, t: seq<Nodes.Node>, handle: nat, ctx: string, s: nat) {
    && s < |r.ep| && r.ep[s].used && r.ep[s].ctx == ctx
    && if handle == 0 then r.ep[s].isMgr else Nodes.Backed(t, handle) && r.ep[s].id == t[handle].owner
  }

  /** A handle reaches at most one endpoint. */
  lemma ReachesOne(r: Reg, t: seq<Nodes.Node>, handle: nat, ctx: string, s: nat, s': nat)
    requires Inv(r) && Reaches(r, t, handle, ctx, s) && Reaches(r, t, handle, ctx, s')
    ensures s == s'
  {
    assert s < s' || s' < s || s == s';
  }

  /** The object and cookie a transaction on a handle is delivered with. */
  function Target(t: seq<Nodes.Node>, handle: nat, cookie: nat): (nat, nat) {
    if Nodes.Backed(t, handle) then (t[handle].ptr, t[handle].cookie) else (0, cookie)
  }

  // ---- what every section keeps ----

  /** No two live endpoints have one id, and none has one that is still to be given out. */
  ghost predicate IdsDistinct(r: Reg) {
    && r.nextId > 0 && (forall i :: 0 <= i < |r.ep| ==> r.ep[i].id < r.nextId && (r.ep[i].used ==> r.ep[i].id > 0))
    && (forall i, j :: 0 <= i < j < |r.ep| && r.ep[i].used && r.ep[j].used ==> r.ep[i].id != r.ep[j].id)
  }

  ghost predicate OneManager(r: Reg) {
    forall i, j :: 0 <= i < j < |r.ep| && r.ep[i].used && r.ep[j].used && r.ep[i].isMgr && r.ep[j].isMgr ==>
      r.ep[i].ctx != r.ep[j].ctx
  }

  ghost predicate NumbersDistinct(r: Reg) {
    && (forall k :: 0 <= k < |r.q| && r.q[k].used ==> r.q[k].num < r.nextSeq)
    && (forall a, b :: 0 <= a < b < |r.q| && r.q[a].used && r.q[b].used ==> r.q[a].num != r.q[b].num)
  }

  ghost predicate Inv(r: Reg) {
    Shaped(r) && IdsDistinct(r) && OneManager(r) && NumbersDistinct(r)
  }

  lemma AvailableKeeps(r: Reg, dead: set<int>)
    requires IdsDistinct(r) && OneManager(r)
    ensures var r1 := r.(ep := Available(r.ep, dead)); IdsDistinct(r1) && OneManager(r1)
  {
  }

  lemma OpensKeeps(r: Reg, r': Reg, s: nat, pid: int, ctx: string, dead: set<int>)
    requires Inv(r) && Opens(r, r', s, pid, ctx, dead)
    ensures Inv(r')
  {
    AvailableKeeps(r, dead);
    assert NumbersDistinct(r') by {
      hide IdsDistinct, OneManager;
      assert forall k :: 0 <= k < |r.q| && r'.q[k].used ==> r'.q[k] == r.q[k];
    }
  }

  /** A change that leaves an endpoint's id and context alone and adds neither a live
      endpoint nor an unopposed manager keeps them all apart. */
  lemma AltersKeeps(r: Reg, r': Reg, s: nat, e: Ep)
    requires Inv(r) && Alters(r, r', s, e) && e.id == r.ep[s].id && e.ctx == r.ep[s].ctx && (e.used ==> r.ep[s].used)
    requires e.used && e.isMgr && !r.ep[s].isMgr ==> forall i :: 0 <= i < |r.ep| ==> !Rival(r.ep[i], e.id, e.ctx)
    ensures Inv(r')
  {
    hide NumbersDistinct;
    assert NumbersDistinct(r') by { SameQueue(r, r'); }
  }

  lemma SameQueue(r: Reg, r': Reg)
    requires NumbersDistinct(r) && r'.q == r.q && r'.nextSeq == r.nextSeq
    ensures NumbersDistinct(r')
  {
  }

  lemma PostsKeeps(r: Reg, r': Reg, k: nat, m: Msg)
    requires Inv(r) && Posts(r, r', k, m)
    ensures Inv(r')
  {
    hide IdsDistinct, OneManager;
    SameEndpoints(r, r');
  }

  lemma SameEndpoints(r: Reg, r': Reg)
    requires IdsDistinct(r) && OneManager(r) && r'.ep == r.ep && r'.nextId == r.nextId
    ensures IdsDistinct(r') && OneManager(r')
  {
  }

  /** Taking a message away. */
  lemma ClearsKeeps(r: Reg, r': Reg, k: nat)
    requires Inv(r) && k < |r.q| && r' == r.(q := r.q[k := r.q[k].(used := false)])
    ensures Inv(r')
  {
    hide IdsDistinct, OneManager;
    SameEndpoints(r, r');
  }

  lemma WithdrawsKeeps(r: Reg, r': Reg, k: nat, id: nat, dead: set<int>)
    requires Inv(r) && Withdraws(r, r', k, id, dead)
    ensures Inv(r')
  {
    hide Inv;
    if r' != r {
      var mid := r.(q := r.q[k := r.q[k].(used := false)]);
      ClearsKeeps(r, mid, k);
      AltersKeeps(mid, r', SlotOf(k), r'.ep[SlotOf(k)]);
    }
  }
}
