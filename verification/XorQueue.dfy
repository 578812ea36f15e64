/**
  The XOR simple queue macros of server/include/aesdsocket/queue.h, over a memory
  of 64-bit words, with the simple queue macros as their reference.

  An XOR queue stores every pointer XORed with the head's cookie.  Decoding a
  memory XORs every queue cell with the cookie again.
 */
module XorQueue {
  import opened Bytes

  /** An address or a cell's content. */
  datatype Word = Word(bits: bv64)
  const NULL: Word := Word(0)

  /** XSIMPLEQ_XOR */
  function Xor(v: Word, k: Word): (w: Word)
    ensures w.bits == v.bits ^ k.bits
  {
    Word(v.bits ^ k.bits)
  }

  /** Where a queue lives: the head's two cells, and the offset of the link in an element. */
  datatype Queue = Queue(first: Word, last: Word, offset: bv64)

  type Memory = map<Word, Word>

  /** `&(elm)->field.sqx_next` */
  function Cell(q: Queue, elm: Word): (a: Word)
    ensures a.bits == elm.bits + q.offset
  {
    Word(elm.bits + q.offset)
  }

  /** Encoding and decoding are the same: XOR of every cell with the cookie. */
  function Code(m: Memory, k: Word): Memory {
    map a | a in m :: Xor(m[a], k)
  }

  lemma XorSelfInverse(v: Word, k: Word)
    ensures Xor(Xor(v, k), k) == v
  {
  }

  lemma XorInjective(v: Word, w: Word, k: Word)
    ensures Xor(v, k) == Xor(w, k) <==> v == w
  {
    XorSelfInverse(v, k);
    XorSelfInverse(w, k);
  }

  lemma CodeSelfInverse(m: Memory, k: Word)
    ensures Code(Code(m, k), k) == m
  {
    forall a | a in m ensures Code(Code(m, k), k)[a] == m[a] {
      XorSelfInverse(m[a], k);
    }
  }

  lemma XorCommutes(v: Word, k: Word)
    ensures Xor(v, k) == Xor(k, v)
  {
  }

  /** Different cookies give different encodings. */
  lemma CookieShows(v: Word, k1: Word, k2: Word)
    requires k1 != k2
    ensures Xor(v, k1) != Xor(v, k2)
  {
    XorCommutes(v, k1);
    XorCommutes(v, k2);
    XorInjective(k1, k2, v);
  }

  lemma CodesDiffer(m: Memory, k1: Word, k2: Word)
    requires k1 != k2
    ensures forall a :: a in m ==> Code(m, k1)[a] != Code(m, k2)[a]
  {
    forall a | a in m ensures Code(m, k1)[a] != Code(m, k2)[a] {
      CookieShows(m[a], k1, k2);
    }
  }

  lemma CodeStore(m: Memory, k: Word, a: Word, v: Word)
    ensures Code(m[a := v], k) == Code(m, k)[a := Xor(v, k)]
  {
  }

  // ----- The reference: simple queues

  datatype Op =
    | InsertHead(elm: Word)
    | InsertTail(elm: Word)
    | InsertAfter(listElm: Word, elm: Word)
    | RemoveHead
    | RemoveAfter(listElm: Word)

  function FirstOf(es: seq<Word>): Word {
    if es == [] then NULL else es[0]
  }

  /** The cell that an insertion at the tail writes to. */
  function TailCell(q: Queue, es: seq<Word>): Word {
    if es == [] then q.first else Cell(q, es[|es| - 1])
  }

  function CellOf(q: Queue, es: seq<Word>, i: nat): Word
    requires i < |es|
  {
    Cell(q, es[i])
  }

  /** The link of element `i` is allocated, is not one of the head's cells, and leads to the next element. */
  predicate LinkAt(m: Memory, q: Queue, es: seq<Word>, i: nat)
    requires i < |es|
  {
    Own(q, es[i]) && Cell(q, es[i]) in m && m[Cell(q, es[i])] == FirstOf(es[i + 1..])
  }

  ghost predicate Distinct(q: Queue, es: seq<Word>) {
    forall i, j :: 0 <= i < j < |es| ==> CellOf(q, es, i) != CellOf(q, es, j)
  }

  /** The memory holds a simple queue of the elements `es`. */
  ghost predicate Linked(m: Memory, q: Queue, es: seq<Word>) {
    && q.first != q.last && q.first in m && q.last in m
    && Distinct(q, es)
    && (forall i :: 0 <= i < |es| ==> LinkAt(m, q, es, i))
    && m[q.first] == FirstOf(es)
    && m[q.last] == TailCell(q, es)
  }

  /** An element's address is not NULL, and its link is not one of the head's cells. */
  predicate Own(q: Queue, elm: Word) {
    elm != NULL && Cell(q, elm) != q.first && Cell(q, elm) != q.last
  }

  /** An element that can be inserted: its link is none of the queue's cells. */
  predicate New(q: Queue, es: seq<Word>, elm: Word) {
    Own(q, elm) && forall i :: 0 <= i < |es| ==> CellOf(q, es, i) != Cell(q, elm)
  }

  /** What the caller of an operation has to provide. */
  predicate Possible(q: Queue, es: seq<Word>, op: Op) {
    match op
    case InsertHead(elm) => New(q, es, elm)
    case InsertTail(elm) => New(q, es, elm)
    case InsertAfter(listElm, elm) => listElm in es && New(q, es, elm)
    case RemoveHead => es != []
    case RemoveAfter(listElm) => listElm in es && IndexOf(es, listElm) + 1 < |es|
  }

  /** The operation on the sequence of elements. */
  function OnElements(q: Queue, es: seq<Word>, op: Op): seq<Word>
    requires Possible(q, es, op)
  {
    match op
    case InsertHead(elm) => [elm] + es
    case InsertTail(elm) => es + [elm]
    case InsertAfter(listElm, elm) => InsertAt(es, IndexOf(es, listElm) + 1, elm)
    case RemoveHead => es[1..]
    case RemoveAfter(listElm) => RemoveAt(es, IndexOf(es, listElm) + 1)
  }

  /** Where the element goes, and that all others stay in their order. */
  lemma OnElementsMoves(q: Queue, es: seq<Word>, op: Op)
    requires Possible(q, es, op)
    ensures var es' := OnElements(q, es, op);
            match op
            case InsertHead(elm) => es' != [] && es'[0] == elm && es'[1..] == es
            case InsertTail(elm) => es' != [] && es'[|es|] == elm && es'[..|es|] == es
            case InsertAfter(listElm, elm) =>
              exists p :: 0 <= p < |es| && es[p] == listElm && |es'| == |es| + 1 && es'[p + 1] == elm
                          && es'[..p + 1] == es[..p + 1] && es'[p + 2..] == es[p + 1..]
            case RemoveHead => es == [es[0]] + es'
            case RemoveAfter(listElm) =>
              exists p :: 0 <= p < |es| - 1 && es[p] == listElm && |es'| == |es| - 1
                          && es'[..p + 1] == es[..p + 1] && es'[p + 1..] == es[p + 2..]
  {
    if op.InsertAfter? || op.RemoveAfter? {
      assert es[IndexOf(es, op.listElm)] == op.listElm;
    }
  }

  function Load(m: Memory, a: Word): Word {
    if a in m then m[a] else NULL
  }

  /** SIMPLEQ_INSERT_HEAD and _AFTER: `elm` is linked in behind the cell `a`. */
  function Inserted(m: Memory, q: Queue, a: Word, elm: Word): Memory {
    var m1 := m[Cell(q, elm) := Load(m, a)];
    var m2 := if Load(m1, Cell(q, elm)) == NULL then m1[q.last := Cell(q, elm)] else m1;
    m2[a := elm]
  }

  /** SIMPLEQ_REMOVE_HEAD and _AFTER: the element `removed`, which is behind the cell `a`, is taken out. */
  function Removed(m: Memory, q: Queue, a: Word, removed: Word): Memory {
    var m1 := m[a := Load(m, Cell(q, removed))];
    if Load(m1, a) == NULL then m1[q.last := a] else m1
  }

  /** The simple queue macros on a memory. */
  function OnMemory(m: Memory, q: Queue, op: Op): Memory {
    match op
    case InsertHead(elm) => Inserted(m, q, q.first, elm)
    case InsertTail(elm) =>
      var m1 := m[Cell(q, elm) := NULL];
      var m2 := m1[Load(m1, q.last) := elm];
      m2[q.last := Cell(q, elm)]
    case InsertAfter(listElm, elm) => Inserted(m, q, Cell(q, listElm), elm)
    case RemoveHead => Removed(m, q, q.first, Load(m, q.first))
    case RemoveAfter(listElm) => Removed(m, q, Cell(q, listElm), Load(m, Cell(q, listElm)))
  }

  // ----- The reference refines the sequence of elements

  /** The cell that leads to position `p`. */
  function CellBefore(q: Queue, es: seq<Word>, p: nat): Word
    requires p <= |es|
  {
    TailCell(q, es[..p])
  }

  /** All cells but three, of which one is the head's last, are as they were. */
  ghost predicate SameBut(m: Memory, m': Memory, a: Word, b: Word, c: Word) {
    forall x :: x in m && x != a && x != b && x != c ==> x in m' && m'[x] == m[x]
  }

  function InsertAt(es: seq<Word>, p: nat, elm: Word): seq<Word>
    requires p <= |es|
  {
    es[..p] + [elm] + es[p..]
  }

  lemma DistinctInsert(q: Queue, es: seq<Word>, p: nat, elm: Word)
    requires Distinct(q, es) && New(q, es, elm) && p <= |es|
    ensures Distinct(q, InsertAt(es, p, elm))
  {
    var es' := InsertAt(es, p, elm);
    forall i, j | 0 <= i < j < |es'| ensures CellOf(q, es', i) != CellOf(q, es', j) {
      assert i != p ==> CellOf(q, es', i) == CellOf(q, es, if i < p then i else i - 1);
      assert j != p ==> CellOf(q, es', j) == CellOf(q, es, if j < p then j else j - 1);
    }
  }

  /** One link after an insertion at `p`. */
  lemma LinkAfterInsert(m: Memory, m': Memory, q: Queue, es: seq<Word>, p: nat, elm: Word, i: nat)
    requires Linked(m, q, es) && New(q, es, elm) && p <= |es| && i <= |es|
    requires Cell(q, elm) in m' && m'[Cell(q, elm)] == FirstOf(es[p..])
    requires CellBefore(q, es, p) in m' && m'[CellBefore(q, es, p)] == elm
    requires SameBut(m, m', Cell(q, elm), CellBefore(q, es, p), q.last)
    ensures LinkAt(m', q, InsertAt(es, p, elm), i)
  {
    var es' := InsertAt(es, p, elm);
    if i == p {
      assert es'[i + 1..] == es[p..];
    } else {
      var j := if i < p then i else i - 1;
      assert es'[i] == es[j] && LinkAt(m, q, es, j) && CellOf(q, es, j) != Cell(q, elm);
      assert p > 0 ==> es[..p][p - 1] == es[p - 1] && CellBefore(q, es, p) == CellOf(q, es, p - 1);
      if i + 1 == p {
        assert es'[i + 1..][0] == elm;
      } else if i < p {
        assert es'[i + 1..][0] == es[i + 1..][0];
      } else {
        assert es'[i + 1..] == es[j + 1..];
      }
    }
  }

  /** What an insertion has to write, wherever it takes place. */
  lemma InsertedLinked(m: Memory, m': Memory, q: Queue, es: seq<Word>, p: nat, elm: Word)
    requires Linked(m, q, es) && New(q, es, elm) && p <= |es|
    requires Cell(q, elm) in m' && m'[Cell(q, elm)] == FirstOf(es[p..])
    requires CellBefore(q, es, p) in m' && m'[CellBefore(q, es, p)] == elm
    requires SameBut(m, m', Cell(q, elm), CellBefore(q, es, p), q.last)
    requires q.last in m' && m'[q.last] == if p == |es| then Cell(q, elm) else m[q.last]
    ensures Linked(m', q, InsertAt(es, p, elm))
  {
    var es' := InsertAt(es, p, elm);
    DistinctInsert(q, es, p, elm);
    forall i | 0 <= i < |es'| ensures LinkAt(m', q, es', i) {
      LinkAfterInsert(m, m', q, es, p, elm, i);
    }
    if p == 0 {
      assert es' == [elm] + es;
    } else {
      assert es[..p][p - 1] == es[p - 1] && LinkAt(m, q, es, p - 1);
    }
  }

  function RemoveAt(es: seq<Word>, p: nat): seq<Word>
    requires p < |es|
  {
    es[..p] + es[p + 1..]
  }

  lemma DistinctRemove(q: Queue, es: seq<Word>, p: nat)
    requires Distinct(q, es) && p < |es|
    ensures Distinct(q, RemoveAt(es, p))
  {
    var es' := RemoveAt(es, p);
    forall i, j | 0 <= i < j < |es'| ensures CellOf(q, es', i) != CellOf(q, es', j) {
      assert CellOf(q, es', i) == CellOf(q, es, if i < p then i else i + 1);
      assert CellOf(q, es', j) == CellOf(q, es, if j < p then j else j + 1);
    }
  }

  lemma LinkAfterRemove(m: Memory, m': Memory, q: Queue, es: seq<Word>, p: nat, i: nat)
    requires Linked(m, q, es) && p < |es| && i < |es| - 1
    requires CellBefore(q, es, p) in m' && m'[CellBefore(q, es, p)] == FirstOf(es[p + 1..])
    requires SameBut(m, m', CellBefore(q, es, p), CellBefore(q, es, p), q.last)
    ensures LinkAt(m', q, RemoveAt(es, p), i)
  {
    var es' := RemoveAt(es, p);
    var j := if i < p then i else i + 1;
    assert es'[i] == es[j] && LinkAt(m, q, es, j);
    assert p > 0 && j != p - 1 ==> CellOf(q, es, j) != CellOf(q, es, p - 1);
    assert p > 0 ==> es[..p][p - 1] == es[p - 1] && CellBefore(q, es, p) == CellOf(q, es, p - 1);
    if i + 1 == p {
      assert es'[i + 1..] == es[p + 1..];
    } else if i < p {
      assert es'[i + 1..][0] == es[i + 1..][0];
    } else {
      assert es'[i + 1..] == es[j + 1..];
    }
  }

  lemma RemovedLinked(m: Memory, m': Memory, q: Queue, es: seq<Word>, p: nat)
    requires Linked(m, q, es) && p < |es|
    requires CellBefore(q, es, p) in m' && m'[CellBefore(q, es, p)] == FirstOf(es[p + 1..])
    requires SameBut(m, m', CellBefore(q, es, p), CellBefore(q, es, p), q.last)
    requires q.last in m' && m'[q.last] == if p + 1 == |es| then CellBefore(q, es, p) else m[q.last]
    ensures Linked(m', q, RemoveAt(es, p))
  {
    var es' := RemoveAt(es, p);
    DistinctRemove(q, es, p);
    forall i | 0 <= i < |es'| ensures LinkAt(m', q, es', i) {
      LinkAfterRemove(m, m', q, es, p, i);
    }
    if p == 0 {
      assert es' == es[1..];
    } else {
      assert es[..p][p - 1] == es[p - 1] && LinkAt(m, q, es, p - 1);
    }
    if p + 1 == |es| {
      assert es' == es[..p];
    }
  }

  lemma InsertHeadRefines(m: Memory, q: Queue, es: seq<Word>, elm: Word)
    requires Linked(m, q, es) && New(q, es, elm)
    ensures Linked(OnMemory(m, q, InsertHead(elm)), q, [elm] + es)
  {
    assert CellBefore(q, es, 0) == q.first && es[0..] == es;
    assert es != [] ==> LinkAt(m, q, es, 0);
    InsertedLinked(m, OnMemory(m, q, InsertHead(elm)), q, es, 0, elm);
    assert InsertAt(es, 0, elm) == [elm] + es;
  }

  lemma InsertTailStores(m: Memory, q: Queue, es: seq<Word>, elm: Word)
    requires Linked(m, q, es) && New(q, es, elm)
    ensures OnMemory(m, q, InsertTail(elm)) == m[Cell(q, elm) := NULL][TailCell(q, es) := elm][q.last := Cell(q, elm)]
  {
  }

  lemma InsertTailRefines(m: Memory, q: Queue, es: seq<Word>, elm: Word)
    requires Linked(m, q, es) && New(q, es, elm)
    ensures Linked(OnMemory(m, q, InsertTail(elm)), q, es + [elm])
  {
    var tail := TailCell(q, es);
    var m' := m[Cell(q, elm) := NULL][tail := elm][q.last := Cell(q, elm)];
    TailIsOwn(m, q, es, elm);
    assert es[..|es|] == es && es[|es|..] == [];
    assert SameBut(m, m', Cell(q, elm), tail, q.last);
    InsertedLinked(m, m', q, es, |es|, elm);
    InsertTailStores(m, q, es, elm);
    assert InsertAt(es, |es|, elm) == es + [elm];
  }

  lemma TailIsOwn(m: Memory, q: Queue, es: seq<Word>, elm: Word)
    requires Linked(m, q, es) && New(q, es, elm)
    ensures TailCell(q, es) in m && TailCell(q, es) != Cell(q, elm) && TailCell(q, es) != q.last
  {
    if es != [] {
      assert LinkAt(m, q, es, |es| - 1) && CellOf(q, es, |es| - 1) != Cell(q, elm);
    }
  }

  lemma InsertAfterRefines(m: Memory, q: Queue, es: seq<Word>, i: nat, elm: Word)
    requires Linked(m, q, es) && New(q, es, elm) && i < |es|
    ensures Linked(OnMemory(m, q, InsertAfter(es[i], elm)), q, InsertAt(es, i + 1, elm))
  {
    assert LinkAt(m, q, es, i) && CellOf(q, es, i) != Cell(q, elm);
    assert i + 1 < |es| ==> LinkAt(m, q, es, i + 1);
    assert es[..i + 1][i] == es[i];
    InsertedLinked(m, OnMemory(m, q, InsertAfter(es[i], elm)), q, es, i + 1, elm);
  }

  lemma RemoveHeadRefines(m: Memory, q: Queue, es: seq<Word>)
    requires Linked(m, q, es) && es != []
    ensures Linked(OnMemory(m, q, RemoveHead), q, es[1..])
  {
    assert LinkAt(m, q, es, 0) && RemoveAt(es, 0) == es[1..];
    assert |es| > 1 ==> LinkAt(m, q, es, 1);
    RemovedLinked(m, OnMemory(m, q, RemoveHead), q, es, 0);
  }

  lemma RemoveAfterRefines(m: Memory, q: Queue, es: seq<Word>, i: nat)
    requires Linked(m, q, es) && i + 1 < |es|
    ensures Linked(OnMemory(m, q, RemoveAfter(es[i])), q, RemoveAt(es, i + 1))
  {
    assert LinkAt(m, q, es, i) && LinkAt(m, q, es, i + 1) && CellOf(q, es, i) != CellOf(q, es, i + 1);
    assert i + 2 < |es| ==> LinkAt(m, q, es, i + 2);
    assert es[..i + 1][i] == es[i];
    RemovedLinked(m, OnMemory(m, q, RemoveAfter(es[i])), q, es, i + 1);
  }

  /** Every operation on a linked memory is the operation on the sequence of its elements. */
  lemma OnMemoryRefines(m: Memory, q: Queue, es: seq<Word>, op: Op)
    requires Linked(m, q, es) && Possible(q, es, op)
    ensures Linked(OnMemory(m, q, op), q, OnElements(q, es, op))
  {
    match op {
      case InsertHead(elm) => InsertHeadRefines(m, q, es, elm);
      case InsertTail(elm) => InsertTailRefines(m, q, es, elm);
      case InsertAfter(listElm, elm) => InsertAfterRefines(m, q, es, IndexOf(es, listElm), elm);
      case RemoveHead => RemoveHeadRefines(m, q, es);
      case RemoveAfter(listElm) => RemoveAfterRefines(m, q, es, IndexOf(es, listElm));
    }
  }

  // ----- Sequences of operations

  predicate AllPossible(q: Queue, es: seq<Word>, ops: seq<Op>)
    decreases |ops|
  {
    ops == [] || (Possible(q, es, ops[0]) && AllPossible(q, OnElements(q, es, ops[0]), ops[1..]))
  }

  function AllOnElements(q: Queue, es: seq<Word>, ops: seq<Op>): seq<Word>
    requires AllPossible(q, es, ops)
    decreases |ops|
  {
    if ops == [] then es else AllOnElements(q, OnElements(q, es, ops[0]), ops[1..])
  }

  function AllOnMemory(m: Memory, q: Queue, ops: seq<Op>): Memory
    decreases |ops|
  {
    if ops == [] then m else AllOnMemory(OnMemory(m, q, ops[0]), q, ops[1..])
  }

  lemma {:induction false} AllOnMemoryRefines(m: Memory, q: Queue, es: seq<Word>, ops: seq<Op>)
    requires Linked(m, q, es) && AllPossible(q, es, ops)
    ensures Linked(AllOnMemory(m, q, ops), q, AllOnElements(q, es, ops))
    decreases |ops|
  {
    if ops != [] {
      OnMemoryRefines(m, q, es, ops[0]);
      AllOnMemoryRefines(OnMemory(m, q, ops[0]), q, OnElements(q, es, ops[0]), ops[1..]);
    }
  }

  // ----- The XOR queue

  lemma LinkedNonNull(m: Memory, q: Queue, es: seq<Word>)
    requires Linked(m, q, es)
    ensures forall i :: 0 <= i < |es| ==> es[i] != NULL
  {
    forall i | 0 <= i < |es| ensures es[i] != NULL {
      assert LinkAt(m, q, es, i);
    }
  }

  /** SIMPLEQ_INIT */
  function InitMemory(q: Queue): Memory {
    map[q.first := NULL, q.last := q.first]
  }

  lemma InitDecodes(q: Queue, k: Word)
    requires q.first != q.last
    ensures Code(map[q.first := Xor(NULL, k), q.last := Xor(q.first, k)], k) == InitMemory(q)
    ensures Linked(InitMemory(q), q, [])
  {
    XorSelfInverse(NULL, k);
    XorSelfInverse(q.first, k);
    CodeStore(map[], k, q.first, Xor(NULL, k));
    CodeStore(map[q.first := Xor(NULL, k)], k, q.last, Xor(q.first, k));
    assert Code(map[], k) == map[];
    assert Distinct(q, []);
  }

  // ----- What the macros write

  /** XSIMPLEQ_INSERT_HEAD and _AFTER: the pointer in the cell `a` is copied as it is, what is new is encoded. */
  ghost predicate InsertStored(m: Memory, m': Memory, q: Queue, k: Word, a: Word, elm: Word, atEnd: bool) {
    var link := Cell(q, elm);
    && a in m && q.last in m && a in m' && q.last in m' && link in m'
    && m'[link] == m[a] && m'[a] == Xor(elm, k)
    && m'[q.last] == if atEnd then Xor(link, k) else m[q.last]
  }

  /** XSIMPLEQ_INSERT_TAIL: the tail cell's address is decoded, the end of the queue is encoded. */
  ghost predicate TailStored(m: Memory, m': Memory, q: Queue, k: Word, elm: Word) {
    && q.last in m
    && var link, tail := Cell(q, elm), Xor(m[q.last], k);
    && q.last in m' && link in m' && tail in m'
    && m'[link] == Xor(NULL, k) && m'[tail] == Xor(elm, k) && m'[q.last] == Xor(link, k)
  }

  /** XSIMPLEQ_REMOVE_HEAD and _AFTER: the removed element's link is copied to the cell `a` as it is. */
  ghost predicate RemoveStored(m: Memory, m': Memory, q: Queue, k: Word, a: Word, removed: Word, atEnd: bool) {
    var link := Cell(q, removed);
    && link in m && q.last in m && a in m' && q.last in m'
    && m'[a] == m[link]
    && m'[q.last] == if atEnd then Xor(a, k) else m[q.last]
  }

  lemma NullBits(k: Word)
    ensures Xor(NULL, k) == k
  {
  }

  /** What a cell holds in which `v` is stored, bit by bit. */
  lemma StoredBits(m: Memory, a: Word, v: Word, k: Word)
    requires a in m && m[a] == Xor(v, k)
    ensures m[a].bits == v.bits ^ k.bits
  {
  }

  /** A head with its cookie, and the memory that the macros update in place. */
  class XorHead {
    const q: Queue
    const cookie: Word
    var mem: Memory

    /** The memory a reader sees who decodes every queue cell. */
    function Decoded(): Memory
      reads this
    {
      Code(mem, cookie)
    }

    /** XSIMPLEQ_INIT, with whatever cookie the random source gave. */
    constructor (q: Queue, cookie: Word)
      requires q.first != q.last
      ensures this.q == q && this.cookie == cookie
      ensures Decoded() == InitMemory(q) && Linked(Decoded(), q, [])
      ensures mem == map[q.first := cookie, q.last := Xor(q.first, cookie)]
    {
      this.q, this.cookie := q, cookie;
      mem := map[q.first := Xor(NULL, cookie), q.last := Xor(q.first, cookie)];
      new;
      InitDecodes(q, cookie);
      NullBits(cookie);
    }

    /** XSIMPLEQ_XOR of a cell's content, for a cell that is allocated. */
    method Fetch(a: Word) returns (v: Word)
      requires a in mem
      ensures v == Load(Decoded(), a) && mem[a] == Xor(v, cookie)
      ensures mem[a] == Xor(NULL, cookie) <==> v == NULL
    {
      v := Xor(mem[a], cookie);
      XorSelfInverse(mem[a], cookie);
      XorInjective(v, NULL, cookie);
    }

    /** Writes the encoding of `v`. */
    method Put(a: Word, v: Word)
      modifies this`mem
      ensures mem == old(mem)[a := Xor(v, cookie)] && Decoded() == old(Decoded())[a := v]
    {
      CodeStore(mem, cookie, a, Xor(v, cookie));
      XorSelfInverse(v, cookie);
      mem := mem[a := Xor(v, cookie)];
    }

    /** Copies an encoded pointer from cell to cell, as it is. */
    method Copy(a: Word, from: Word)
      requires from in mem
      modifies this`mem
      ensures mem == old(mem)[a := old(mem[from])]
      ensures Decoded() == old(Decoded())[a := Load(old(Decoded()), from)]
    {
      CodeStore(mem, cookie, a, mem[from]);
      mem := mem[a := mem[from]];
    }

    /** Whether a cell holds the encoding of NULL. */
    predicate IsEnd(a: Word)
      requires a in mem
      reads this
    {
      mem[a] == Xor(NULL, cookie)
    }

    lemma EndIsNull(a: Word)
      requires a in mem
      ensures IsEnd(a) <==> Load(Decoded(), a) == NULL
    {
      XorSelfInverse(mem[a], cookie);
      XorInjective(Xor(mem[a], cookie), NULL, cookie);
    }

    /** Links `elm` in behind the cell `a`: what XSIMPLEQ_INSERT_HEAD and _AFTER write. */
    method LinkIn(a: Word, elm: Word)
      requires a in mem && q.last in mem && a != q.last && Cell(q, elm) != a && Cell(q, elm) != q.last
      modifies this`mem
      ensures Decoded() == Inserted(old(Decoded()), q, a, elm)
      ensures InsertStored(old(mem), mem, q, cookie, a, elm, Load(old(Decoded()), a) == NULL)
    {
      Copy(Cell(q, elm), a);
      EndIsNull(Cell(q, elm));
      if IsEnd(Cell(q, elm)) {
        Put(q.last, Cell(q, elm));
      }
      Put(a, elm);
    }

    /** Takes the element `removed` out behind the cell `a`: what XSIMPLEQ_REMOVE_HEAD and _AFTER write. */
    method LinkOut(a: Word, removed: Word)
      requires Cell(q, removed) in mem && q.last in mem && a != q.last
      modifies this`mem
      ensures Decoded() == Removed(old(Decoded()), q, a, removed)
      ensures RemoveStored(old(mem), mem, q, cookie, a, removed, Load(old(Decoded()), Cell(q, removed)) == NULL)
    {
      Copy(a, Cell(q, removed));
      EndIsNull(a);
      if IsEnd(a) {
        Put(q.last, a);
      }
    }

    /** XSIMPLEQ_INSERT_HEAD */
    method InsertHead(elm: Word, ghost es: seq<Word>)
      requires Linked(Decoded(), q, es) && New(q, es, elm)
      modifies this`mem
      ensures Decoded() == OnMemory(old(Decoded()), q, Op.InsertHead(elm))
      ensures Linked(Decoded(), q, [elm] + es)
      ensures InsertStored(old(mem), mem, q, cookie, q.first, elm, es == [])
    {
      LinkedNonNull(Decoded(), q, es);
      InsertHeadRefines(Decoded(), q, es, elm);
      LinkIn(q.first, elm);
    }

    /** XSIMPLEQ_INSERT_TAIL */
    method InsertTail(elm: Word, ghost es: seq<Word>)
      requires Linked(Decoded(), q, es) && New(q, es, elm)
      modifies this`mem
      ensures Decoded() == OnMemory(old(Decoded()), q, Op.InsertTail(elm))
      ensures Linked(Decoded(), q, es + [elm])
      ensures TailStored(old(mem), mem, q, cookie, elm)
    {
      InsertTailRefines(Decoded(), q, es, elm);
      TailIsOwn(Decoded(), q, es, elm);
      Put(Cell(q, elm), NULL);
      var tail := Fetch(q.last);
      Put(tail, elm);
      Put(q.last, Cell(q, elm));
    }

    /** XSIMPLEQ_INSERT_AFTER */
    method InsertAfter(listElm: Word, elm: Word, ghost es: seq<Word>, ghost i: nat)
      requires Linked(Decoded(), q, es) && New(q, es, elm)
      requires i < |es| && es[i] == listElm
      modifies this`mem
      ensures Decoded() == OnMemory(old(Decoded()), q, Op.InsertAfter(listElm, elm))
      ensures Linked(Decoded(), q, es[..i + 1] + [elm] + es[i + 1..])
      ensures InsertStored(old(mem), mem, q, cookie, Cell(q, listElm), elm, i + 1 == |es|)
    {
      LinkedNonNull(Decoded(), q, es);
      InsertAfterRefines(Decoded(), q, es, i, elm);
      assert LinkAt(Decoded(), q, es, i) && CellOf(q, es, i) != Cell(q, elm);
      LinkIn(Cell(q, listElm), elm);
    }

    /** XSIMPLEQ_REMOVE_HEAD */
    method RemoveHead(ghost es: seq<Word>)
      requires Linked(Decoded(), q, es) && es != []
      modifies this`mem
      ensures Decoded() == OnMemory(old(Decoded()), q, Op.RemoveHead)
      ensures Linked(Decoded(), q, es[1..])
      ensures RemoveStored(old(mem), mem, q, cookie, q.first, es[0], |es| == 1)
    {
      LinkedNonNull(Decoded(), q, es);
      RemoveHeadRefines(Decoded(), q, es);
      assert LinkAt(Decoded(), q, es, 0);
      var elm := Fetch(q.first);
      LinkOut(q.first, elm);
    }

    /** XSIMPLEQ_REMOVE_AFTER */
    method RemoveAfter(elm: Word, ghost es: seq<Word>, ghost i: nat)
      requires Linked(Decoded(), q, es) && i + 1 < |es| && es[i] == elm
      modifies this`mem
      ensures Decoded() == OnMemory(old(Decoded()), q, Op.RemoveAfter(elm))
      ensures Linked(Decoded(), q, es[..i + 1] + es[i + 2..])
      ensures RemoveStored(old(mem), mem, q, cookie, Cell(q, elm), es[i + 1], i + 2 == |es|)
    {
      LinkedNonNull(Decoded(), q, es);
      RemoveAfterRefines(Decoded(), q, es, i);
      assert LinkAt(Decoded(), q, es, i) && LinkAt(Decoded(), q, es, i + 1);
      var next := Fetch(Cell(q, elm));
      LinkOut(Cell(q, elm), next);
    }

    /** XSIMPLEQ_FOREACH, with a body that records each element. */
    method Foreach(ghost es: seq<Word>) returns (visited: seq<Word>)
      requires Linked(Decoded(), q, es)
      ensures visited == es
    {
      visited := [];
      var elm := Fetch(q.first);
      LinkedNonNull(Decoded(), q, es);
      while elm != NULL
        invariant |visited| <= |es| && visited == es[..|visited|]
        invariant elm == if |visited| < |es| then es[|visited|] else NULL
        decreases |es| - |visited|
      {
        assert LinkAt(Decoded(), q, es, |visited|);
        visited := visited + [elm];
        elm := Fetch(Cell(q, elm));
      }
    }

    method PerformOne(op: Op, ghost es: seq<Word>)
      requires Linked(Decoded(), q, es) && Possible(q, es, op)
      modifies this`mem
      ensures Decoded() == OnMemory(old(Decoded()), q, op)
      ensures Linked(Decoded(), q, OnElements(q, es, op))
    {
      match op {
        case InsertHead(elm) => InsertHead(elm, es);
        case InsertTail(elm) => InsertTail(elm, es);
        case InsertAfter(listElm, elm) => InsertAfter(listElm, elm, es, IndexOf(es, listElm));
        case RemoveHead => RemoveHead(es);
        case RemoveAfter(elm) => RemoveAfter(elm, es, IndexOf(es, elm));
      }
    }

    /**
      Any sequence of operations: the decoded memory afterwards is that of the
      simple queue operations, in which the cookie does not occur.
     */
    method Perform(ops: seq<Op>, ghost es: seq<Word>)
      requires Linked(Decoded(), q, es) && AllPossible(q, es, ops)
      modifies this`mem
      ensures Decoded() == AllOnMemory(old(Decoded()), q, ops)
      ensures Linked(Decoded(), q, AllOnElements(q, es, ops))
    {
      ghost var now := es;
      ghost var start := Decoded();
      for i := 0 to |ops|
        invariant Linked(Decoded(), q, now) && AllPossible(q, now, ops[i..])
        invariant AllOnMemory(Decoded(), q, ops[i..]) == AllOnMemory(start, q, ops)
        invariant AllOnElements(q, now, ops[i..]) == AllOnElements(q, es, ops)
      {
        assert ops[i..][0] == ops[i] && ops[i..][1..] == ops[i + 1..];
        PerformOne(ops[i], now);
        now := OnElements(q, now, ops[i]);
      }
      assert ops[|ops|..] == [];
    }
  }

  /**
    Whatever the two cookies, two queues on which the same operations are performed
    have the same elements and the same tail cell, those of the simple queue.
   */
  method CookieIndependent(q: Queue, k1: Word, k2: Word, ops: seq<Op>) returns (h1: XorHead, h2: XorHead)
    requires q.first != q.last && AllPossible(q, [], ops)
    ensures h1.cookie == k1 && h2.cookie == k2
    ensures h1.Decoded() == h2.Decoded() == AllOnMemory(InitMemory(q), q, ops)
    ensures Linked(h1.Decoded(), q, AllOnElements(q, [], ops))
    ensures q.last in h1.mem && Xor(h1.mem[q.last], k1) == TailCell(q, AllOnElements(q, [], ops))
    ensures h1.mem == Code(h1.Decoded(), k1) && h2.mem == Code(h1.Decoded(), k2)
    ensures k1 != k2 ==> forall a :: a in h1.mem ==> a in h2.mem && h1.mem[a] != h2.mem[a]
  {
    h1 := new XorHead(q, k1);
    h2 := new XorHead(q, k2);
    h1.Perform(ops, []);
    h2.Perform(ops, []);
    ghost var simple := h1.Decoded();
    assert h1.mem == Code(simple, k1) by { CodeSelfInverse(h1.mem, k1); }
    assert h2.mem == Code(simple, k2) by { CodeSelfInverse(h2.mem, k2); }
    if k1 != k2 {
      CodesDiffer(simple, k1, k2);
    }
  }
}
