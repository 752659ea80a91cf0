/** The snapshot channel as a transition system over an explicit heap: one step
    per atomic operation or free. A freed address may be allocated again, and a
    step that touches an address not allocated is a fault. */
module Snapshot {

  type Addr = nat

  datatype Ptr = Null | To(addr: Addr)

  datatype Node<+T> = Node(data: T, next: Ptr, released: bool)

  /** Where the writer is inside `publish` or `drop`. */
  datatype WriterPC =
    | WIdle
    | WNew(node: Addr)        // allocated, before the CAS on `tail.next`
    | WLinked(node: Addr)     // linked, `tail` not moved yet
    | WRefused(node: Addr)    // the CAS failed, the new node is to be reclaimed
    | WReleasing              // drop: closed, before the swap of `released`
    | WLast                   // drop: second to release, before the free
    | WGone

  /** Who called `update` or `close`. */
  datatype Mode = Plain | Closing | Dropping

  /** Where the reader is inside `update`, `close` or `drop`. */
  datatype ReaderPC =
    | RIdle
    | RLoading(mode: Mode)                  // before the load of `current.next`
    | RChecking(mode: Mode, next: Addr)     // loaded a node, before `is_closed`
    | RWalking(mode: Mode, next: Addr)      // before `current = next`
    | RFreeing(mode: Mode, left: Addr)       // moved on, before the free
    | RReloading(mode: Mode)                // freed, before the next load
    | RShutting(mode: Mode)                 // close: before the CAS of the self-pointer
    | RShutCheck(mode: Mode)                // close: the CAS failed, before `is_closed`
    | RReleasing
    | RLast
    | RGone

  datatype Answer = NoAnswer | Unchanged | Updated | Disconnected

  datatype State<+T> = State(
    heap: map<Addr, Node<T>>,
    tail: Addr,               // the writer's field
    current: Addr,            // the reader's field
    w: WriterPC,
    r: ReaderPC,
    answer: Answer,           // what the last `update` returned
    chain: seq<Addr>,         // linked nodes from the reader's position on
    passed: nat,              // nodes the reader has left behind
    history: seq<T>,          // every value published, the seed first
    allocs: nat,
    frees: nat,
    fault: bool               // a node was touched or freed while not allocated
  )

  datatype Action<+T> =
    | BeginPublish(addr: Addr, value: T)
    | WriterClose
    | WriterDrop
    | WriterGo
    | BeginUpdate
    | BeginClose
    | BeginDrop
    | ReaderGo

  function Init<T>(addr: Addr, seed: T): State<T> {
    State(map[addr := Node(seed, Null, false)], addr, addr, WIdle, RIdle, NoAnswer, [addr], 0, [seed], 1, 0, false)
  }

  // ------------------------------------------------------------- heap access

  function Fault<T>(s: State<T>): State<T> { s.(fault := true) }

  function SetNext<T>(s: State<T>, a: Addr, next: Ptr): State<T>
    requires a in s.heap
  {
    s.(heap := s.heap[a := s.heap[a].(next := next)])
  }

  /** Frees a node, and takes it out of the chain if it was the last one there. */
  function Free<T>(s: State<T>, a: Addr): State<T> {
    if a !in s.heap then Fault(s)
    else s.(heap := s.heap - {a}, frees := s.frees + 1)
  }

  // ------------------------------------------------------------------ writer

  /** The exchange of `publish`: from null to the new node. */
  function Link<T>(s: State<T>, node: Addr): State<T> {
    if s.tail !in s.heap || node !in s.heap then Fault(s)
    else if s.heap[s.tail].next == Null then
      SetNext(s, s.tail, To(node)).(w := WLinked(node), chain := s.chain + [node], history := s.history + [s.heap[node].data])
    else s.(w := WRefused(node))
  }

  function CloseTail<T>(s: State<T>, w: WriterPC): State<T> {
    if s.tail !in s.heap then Fault(s) else SetNext(s, s.tail, To(s.tail)).(w := w)
  }

  /** `Snapshot::release` up to the swap: the second end to come frees the node. */
  function Swap<T>(s: State<T>, a: Addr): State<T>
    requires a in s.heap
  {
    s.(heap := s.heap[a := s.heap[a].(released := true)])
  }

  function WriterStep<T>(s: State<T>): State<T> {
    match s.w
    case WIdle => s
    case WNew(node) => Link(s, node)
    case WLinked(node) => s.(tail := node, w := WIdle)
    case WRefused(node) => Free(s, node).(w := WIdle)
    case WReleasing =>
      if s.tail !in s.heap then Fault(s)
      else Swap(s, s.tail).(w := if s.heap[s.tail].released then WLast else WGone)
    case WLast => Free(s, s.tail).(w := WGone, chain := [], passed := s.passed + |s.chain|)
    case WGone => s
  }

  // ------------------------------------------------------------------ reader

  /** `update` returned to its caller. */
  function UpdateReturns<T>(s: State<T>, mode: Mode, answer: Answer): State<T> {
    if mode.Plain? then s.(r := RIdle, answer := answer)
    else if answer == Disconnected then CloseReturns(s, mode)
    else s.(r := RShutting(mode))
  }

  function CloseReturns<T>(s: State<T>, mode: Mode): State<T> {
    s.(r := if mode.Dropping? then RReleasing else RIdle)
  }

  function ReaderStep<T>(s: State<T>): State<T> {
    match s.r
    case RIdle => s
    case RGone => s
    case RFreeing(mode, left) => Free(s, left).(r := RReloading(mode))
    case RLast => Free(s, s.current).(r := RGone, chain := [], passed := s.passed + |s.chain|)
    case _ => if s.current !in s.heap then Fault(s) else ReaderLoad(s)
  }

  /** The reader's operations on its own node. */
  function ReaderLoad<T>(s: State<T>): State<T>
    requires s.current in s.heap
  {
    var next := s.heap[s.current].next;
    match s.r
    case RLoading(mode) =>
      if next == Null then UpdateReturns(s, mode, Unchanged) else s.(r := RChecking(mode, next.addr))
    case RChecking(mode, first) =>
      if next == To(s.current) then UpdateReturns(s, mode, Disconnected)
      else if first == s.current then UpdateReturns(s, mode, Updated)
      else s.(r := RWalking(mode, first))
    case RWalking(mode, to) =>
      s.(current := to, r := RFreeing(mode, s.current),
         chain := if |s.chain| > 0 then s.chain[1..] else s.chain, passed := s.passed + 1)
    case RReloading(mode) =>
      if next == Null || next == To(s.current) then UpdateReturns(s, mode, Updated) else s.(r := RWalking(mode, next.addr))
    case RShutting(mode) =>
      if next == Null then CloseReturns(SetNext(s, s.current, To(s.current)), mode) else s.(r := RShutCheck(mode))
    case RShutCheck(mode) =>
      if next == To(s.current) then CloseReturns(s, mode) else s.(r := RLoading(mode))
    case RReleasing => Swap(s, s.current).(r := if s.heap[s.current].released then RLast else RGone)
    case _ => s
  }

  /** One step; an action that is not possible now changes nothing. */
  function Step<T>(s: State<T>, a: Action<T>): State<T> {
    match a
    case BeginPublish(addr, value) =>
      if s.w.WIdle? && addr !in s.heap
      then s.(heap := s.heap[addr := Node(value, Null, false)], w := WNew(addr), allocs := s.allocs + 1) else s
    case WriterClose => if s.w.WIdle? then CloseTail(s, WIdle) else s
    case WriterDrop => if s.w.WIdle? then CloseTail(s, WReleasing) else s
    case WriterGo => WriterStep(s)
    case BeginUpdate => if s.r.RIdle? then s.(r := RLoading(Plain), answer := NoAnswer) else s
    case BeginClose => if s.r.RIdle? then s.(r := RShutting(Closing)) else s
    case BeginDrop => if s.r.RIdle? then s.(r := RShutting(Dropping)) else s
    case ReaderGo => ReaderStep(s)
  }

  function Exec<T>(s: State<T>, actions: seq<Action<T>>): State<T>
    decreases |actions|
  {
    if actions == [] then s else Exec(Step(s, actions[0]), actions[1..])
  }

  // -------------------------------------------------------------- invariant

  predicate Distinct(chain: seq<Addr>) {
    forall j, k :: 0 <= j < k < |chain| ==> chain[j] != chain[k]
  }

  function Last(chain: seq<Addr>): Addr
    requires chain != []
  {
    chain[|chain| - 1]
  }

  /** The node the writer allocated and has not linked, or is reclaiming. */
  predicate IsStray<T>(s: State<T>, a: Addr) {
    (s.w.WNew? || s.w.WRefused?) && a == s.w.node
  }

  /** The node the reader has moved away from and not freed yet. */
  predicate IsLeft<T>(s: State<T>, a: Addr) {
    s.r.RFreeing? && a == s.r.left
  }

  predicate IsClosed<T>(s: State<T>)
    requires s.chain != [] && Last(s.chain) in s.heap
  {
    s.heap[Last(s.chain)].next == To(Last(s.chain))
  }

  /** The live nodes are exactly the chain and the two kinds of stray node, and
      every allocation not freed yet is one of them. */
  ghost predicate HeapOk<T>(s: State<T>) {
    && !s.fault
    && Distinct(s.chain)
    && (forall a :: a in s.heap <==> a in s.chain || IsStray(s, a) || IsLeft(s, a))
    && (forall a :: IsStray(s, a) ==> a !in s.chain && !IsLeft(s, a))
    && (forall a :: IsLeft(s, a) ==> a !in s.chain)
    && s.allocs == s.frees + |s.chain| + (if s.w.WNew? || s.w.WRefused? then 1 else 0) + (if s.r.RFreeing? then 1 else 0)
  }

  /** Each node points to the next; only the last one is open or closed. */
  ghost predicate LinksOk<T>(s: State<T>) {
    && (forall k :: 0 <= k < |s.chain| ==> s.chain[k] in s.heap)
    && (forall k :: 0 <= k < |s.chain| - 1 ==> s.heap[s.chain[k]].next == To(s.chain[k + 1]))
    && (s.chain != [] ==> s.heap[Last(s.chain)].next == Null || IsClosed(s))
    && (s.chain == [] <==> s.w.WGone? && s.r.RGone?)
  }

  ghost predicate HistoryOk<T>(s: State<T>)
    requires LinksOk(s)
  {
    && |s.history| == s.passed + |s.chain|
    && forall k :: 0 <= k < |s.chain| ==> s.heap[s.chain[k]].data == s.history[s.passed + k]
  }

  ghost predicate WriterOk<T>(s: State<T>)
    requires LinksOk(s)
  {
    && (s.w.WIdle? || s.w.WNew? || s.w.WRefused? || s.w.WReleasing? || s.w.WLast? ==> s.chain != [] && s.tail == Last(s.chain))
    && (s.w.WNew? ==> s.w.node in s.heap && s.heap[s.w.node].next == Null)
    && (s.w.WLinked? ==> s.chain != [] && s.w.node == Last(s.chain))
    && (s.w.WRefused? || s.w.WReleasing? || s.w.WLast? || (s.w.WGone? && !s.r.RGone?) ==> s.chain != [] && IsClosed(s))
    && (s.w.WLast? ==> s.r.RGone?)
  }

  ghost predicate ReaderOk<T>(s: State<T>)
    requires LinksOk(s)
  {
    && (!s.r.RGone? ==> s.chain != [] && s.current == s.chain[0])
    && (s.r.RChecking? || s.r.RWalking? ==> s.heap[s.current].next == To(s.r.next))
    && (s.r.RWalking? ==> |s.chain| > 1)
    && (s.r.RShutCheck? ==> s.heap[s.current].next != Null)
    && (s.r.RReleasing? || s.r.RLast? || (s.r.RGone? && !s.w.WGone?) ==> |s.chain| == 1 && IsClosed(s))
    && (s.r.RLast? ==> s.w.WGone?)
    && ((s.r.RLoading? || s.r.RChecking?) && !s.r.mode.Plain? ==> |s.chain| > 1)
  }

  /** One of the ends has released the final node. */
  predicate HalfReleased<T>(s: State<T>) {
    s.w.WGone? || s.w.WLast? || s.r.RGone? || s.r.RLast?
  }

  /** The flag of a node says whether one of the ends has released it. */
  ghost predicate ReleasedOk<T>(s: State<T>) {
    forall a :: a in s.heap ==>
      (s.heap[a].released <==> s.chain != [] && a == Last(s.chain) && HalfReleased(s))
  }

  ghost predicate Inv<T>(s: State<T>) {
    HeapOk(s) && LinksOk(s) && HistoryOk(s) && WriterOk(s) && ReaderOk(s) && ReleasedOk(s)
  }
}
