/**
 * The correlation state of `PairingService` (lib/sodax/pairing.ts:16-100) as
 * a value, and `processMessage` / `processMessages` as functions on it. The
 * class in service.dfy updates its fields in place and is proved to follow
 * these functions step for step.
 */
module Correlation {
  import opened Wrappers
  import opened Parser
  import opened Intents
  import opened Sorting

  /**
   * The three collections of the service: the intents by id, with their
   * insertion order (the iteration order of a JavaScript `Map`), the index
   * from match key to the intents filed under it, oldest first, and the ids
   * of every message already seen.
   */
  datatype Index = Index(
    intents: map<IntentId, PairedIntent>,
    order: seq<IntentId>,
    lookup: map<MatchKey, seq<IntentId>>,
    processed: set<MessageId>)

  const Empty: Index := Index(map[], [], map[], {})

  /** The new state, and whether the call ended by throwing (a malformed amount). */
  datatype Outcome = Outcome(index: Index, raised: bool)

  /** The intent still lacks the leg a message of this kind would supply. */
  predicate SlotOpen(i: PairedIntent, kind: MessageType) {
    if kind == Quote then i.quote.None? else kind == Fill && i.fill.None?
  }

  predicate Eligible(intents: map<IntentId, PairedIntent>, id: IntentId, kind: MessageType) {
    id in intents && SlotOpen(intents[id], kind)
  }

  /** The position of the first candidate that can take the leg: the scan at pairing.ts:56-69. */
  function FirstOpen(cands: seq<IntentId>, intents: map<IntentId, PairedIntent>, kind: MessageType): (r: Option<nat>)
    ensures r.Some? ==> r.value < |cands| && Eligible(intents, cands[r.value], kind)
    ensures forall j :: 0 <= j < |cands| && (r.None? || j < r.value) ==> !Eligible(intents, cands[j], kind)
  {
    if cands == [] then None
    else if Eligible(intents, cands[0], kind) then Some(0)
    else
      match FirstOpen(cands[1..], intents, kind)
      case None => None
      case Some(j) => Some(j + 1)
  }

  function Candidates(st: Index, key: MatchKey): seq<IntentId> {
    if key in st.lookup then st.lookup[key] else []
  }

  /** The intent with `leg` in the slot of its kind. */
  function WithLeg(i: PairedIntent, kind: MessageType, leg: Leg): PairedIntent {
    if kind == Quote then i.(quote := Some(leg))
    else if kind == Fill then i.(fill := Some(leg))
    else i
  }

  /** A new intent before its first leg is attached. */
  function NewIntent(id: IntentId, kind: MessageType): PairedIntent {
    PairedIntent(id, None, None, if kind == Quote then Pending else OrphanFill, None)
  }

  /**
   * What placing a leg writes: the intent that receives it, as it is
   * afterwards, and whether that intent is new.
   */
  datatype Step = Step(target: IntentId, value: PairedIntent, created: bool)

  /**
   * The first candidate under `key` that lacks the leg of message `m`, or a
   * new intent named after `m` when there is none, with the leg attached and
   * status and slippage recomputed (pairing.ts:50-99).
   */
  function StepOf(st: Index, key: MatchKey, p: ParsedMessage, m: MessageDetail): (r: Step)
    ensures r.created ==> r.target == m.id
    ensures !r.created ==> r.target in Candidates(st, key) && r.target in st.intents
  {
    var leg := Leg(p, m.createdAt, m.id);
    var cands := Candidates(st, key);
    match FirstOpen(cands, st.intents, p.kind)
    case Some(j) =>
      Step(cands[j], Recomputed(WithLeg(st.intents[cands[j]], p.kind, leg)), false)
    case None =>
      Step(m.id, Recomputed(WithLeg(NewIntent(m.id, p.kind), p.kind, leg)), true)
  }

  /** Writes the intent of the step; a new one is also appended to the order and filed under `key`. */
  function Apply(st: Index, key: MatchKey, s: Step): Index {
    if s.created then
      st.(intents := st.intents[s.target := s.value],
          order := st.order + [s.target],
          lookup := st.lookup[key := Candidates(st, key) + [s.target]])
    else
      st.(intents := st.intents[s.target := s.value])
  }

  /**
   * Attaches the leg of message `m` to the first candidate under `key` that
   * lacks it, or files a new intent named after `m` under `key`, then
   * recomputes status and slippage of the intent that received the leg.
   */
  function Place(st: Index, key: MatchKey, p: ParsedMessage, m: MessageDetail): (r: Index)
    ensures r.processed == st.processed
    ensures st.intents.Keys <= r.intents.Keys <= st.intents.Keys + {m.id}
    ensures st.order <= r.order <= st.order + [m.id]
    ensures Candidates(st, key) <= Candidates(r, key)
    ensures forall k :: k != key ==> Candidates(r, k) == Candidates(st, k)
    ensures forall k :: k in st.lookup ==> k in r.lookup
  {
    Apply(st, key, StepOf(st, key, p, m))
  }

  /** `processMessage`. */
  function Ingest(st: Index, m: MessageDetail): (r: Outcome)
    ensures m.id in st.processed ==> r == Outcome(st, false)
    ensures r.index.processed == st.processed + {m.id}
    ensures r.raised <==> m.id !in st.processed && ParseActionDetail(m.actionDetail).Err?
    ensures r.raised ==> r.index == st.(processed := st.processed + {m.id})
    ensures st.order <= r.index.order <= st.order + [m.id]
  {
    if m.id in st.processed then Outcome(st, false)
    else
      var marked := st.(processed := st.processed + {m.id});
      match ParseActionDetail(m.actionDetail)
      case Err(_) => Outcome(marked, true)
      case Ok(p) =>
        if p.kind == Unknown then Outcome(marked, false)
        else
          match LookupKey(p)
          case None => Outcome(marked, false)
          case Some(key) => Outcome(Place(marked, key, p, m), false)
  }

  /** The loop of `processMessages`: ingest in turn, stopping at the first throw. */
  function IngestAll(st: Index, ms: seq<MessageDetail>): (r: Outcome)
    ensures st.processed <= r.index.processed
    ensures st.order <= r.index.order && |r.index.order| <= |st.order| + |ms|
    ensures r.raised ==> exists m :: m in ms && ParseActionDetail(m.actionDetail).Err?
    decreases |ms|
  {
    if ms == [] then Outcome(st, false)
    else
      var o := Ingest(st, ms[0]);
      if o.raised then o else IngestAll(o.index, ms[1..])
  }

  function IdOf(m: MessageDetail): int {
    m.id
  }

  /** `processMessages`: the batch in ascending id order, equal ids in delivery order. */
  function ProcessBatch(st: Index, ms: seq<MessageDetail>): (r: Outcome)
    ensures st.processed <= r.index.processed
    ensures st.order <= r.index.order && |r.index.order| <= |st.order| + |ms|
    ensures r.raised ==> exists m :: m in ms && ParseActionDetail(m.actionDetail).Err?
  {
    var sorted := SortBy(ms, IdOf);
    assert |sorted| == |multiset(sorted)| == |ms|;
    assert forall m :: m in sorted ==> m in multiset(ms);
    IngestAll(st, sorted)
  }

  // ---------------------------------------------------------------------
  // The invariant of the service state

  /** Every leg of the intent has match key `key`. */
  ghost predicate KeyedBy(i: PairedIntent, key: MatchKey) {
    && (i.quote.Some? ==> LookupKey(i.quote.value.msg) == Some(key))
    && (i.fill.Some? ==> LookupKey(i.fill.value.msg) == Some(key))
  }

  /** The key an intent is filed under: that of its legs. */
  function HomeKey(i: PairedIntent): Option<MatchKey> {
    if i.quote.Some? then LookupKey(i.quote.value.msg)
    else if i.fill.Some? then LookupKey(i.fill.value.msg)
    else None
  }

  ghost predicate Distinct(s: seq<IntentId>) {
    forall a, b :: 0 <= a < b < |s| ==> s[a] != s[b]
  }

  /**
   * A stored intent carries its own id, which is the id of a processed
   * message; it is consistent; and it is filed under its key.
   */
  ghost predicate IntentOk(st: Index, id: IntentId)
    requires id in st.intents
  {
    var i := st.intents[id];
    && i.intentId == id
    && id in st.processed
    && Consistent(i)
    && HomeKey(i).Some?
    && HomeKey(i).value in st.lookup
    && id in st.lookup[HomeKey(i).value]
  }

  /**
   * The order lists each stored intent once; every stored intent is sound;
   * every id filed under a key names a stored intent whose legs all have that key.
   */
  ghost predicate Inv(st: Index) {
    && Distinct(st.order)
    && (forall id :: id in st.intents <==> id in st.order)
    && (forall id :: id in st.intents ==> IntentOk(st, id))
    && (forall key :: key in st.lookup ==> FiledOk(st, key))
  }

  /** Every id filed under `key` names a stored intent whose legs have that key. */
  ghost predicate FiledOk(st: Index, key: MatchKey)
    requires key in st.lookup
  {
    forall t :: 0 <= t < |st.lookup[key]| ==>
      st.lookup[key][t] in st.intents && KeyedBy(st.intents[st.lookup[key][t]], key)
  }

  lemma EmptyInv()
    ensures Inv(Empty)
  {
  }

  lemma HomeKeyOfKeyed(i: PairedIntent, key: MatchKey)
    requires Consistent(i) && KeyedBy(i, key)
    ensures HomeKey(i) == Some(key)
  {
  }

  lemma MarkPreservesInv(st: Index, id: MessageId)
    requires Inv(st)
    ensures Inv(st.(processed := st.processed + {id}))
  {
    var st' := st.(processed := st.processed + {id});
    forall x | x in st'.intents ensures IntentOk(st', x) {
      assert IntentOk(st, x);
    }
  }

  /** A leg attached to an open slot of a consistent intent yields a consistent intent. */
  lemma AttachConsistent(i: PairedIntent, kind: MessageType, leg: Leg)
    requires Consistent(i) && SlotOpen(i, kind)
    requires kind != Unknown && LegOk(leg, kind)
    ensures Consistent(Recomputed(WithLeg(i, kind, leg)))
    ensures Recomputed(WithLeg(i, kind, leg)).intentId == i.intentId
    ensures Recomputed(WithLeg(i, kind, leg)).status == Filled
  {
    RecomputedConsistent(WithLeg(i, kind, leg));
  }

  lemma AttachPreservesInv(st: Index, key: MatchKey, p: ParsedMessage, m: MessageDetail, j: nat)
    requires Inv(st)
    requires p.kind != Unknown && Complete(p) && LookupKey(p) == Some(key)
    requires FirstOpen(Candidates(st, key), st.intents, p.kind) == Some(j)
    ensures Inv(Place(st, key, p, m))
  {
    var cands := Candidates(st, key);
    var id := cands[j];
    var leg := Leg(p, m.createdAt, m.id);
    var oi := st.intents[id];
    var ni := Recomputed(WithLeg(oi, p.kind, leg));
    var st' := Place(st, key, p, m);
    assert StepOf(st, key, p, m) == Step(id, ni, false);
    assert st' == st.(intents := st.intents[id := ni]);
    assert key in st.lookup && id in st.lookup[key];
    assert KeyedBy(oi, key);
    assert IntentOk(st, id);
    AttachConsistent(oi, p.kind, leg);
    assert KeyedBy(ni, key);
    HomeKeyOfKeyed(ni, key);
    forall x | x in st'.intents ensures IntentOk(st', x) {
      if x != id {
        assert IntentOk(st, x);
      }
    }
    forall k, x | k in st'.lookup && x in st'.lookup[k] ensures x in st'.intents && KeyedBy(st'.intents[x], k) {
      if x == id {
        HomeKeyOfKeyed(oi, k);
        HomeKeyOfKeyed(oi, key);
      }
    }
  }

  lemma CreatePreservesInv(st: Index, key: MatchKey, p: ParsedMessage, m: MessageDetail)
    requires Inv(st) && m.id in st.processed
    requires forall x :: x in st.intents ==> x != m.id
    requires p.kind != Unknown && Complete(p) && LookupKey(p) == Some(key)
    requires FirstOpen(Candidates(st, key), st.intents, p.kind).None?
    ensures Inv(Place(st, key, p, m))
  {
    var leg := Leg(p, m.createdAt, m.id);
    var ni := Recomputed(WithLeg(NewIntent(m.id, p.kind), p.kind, leg));
    assert StepOf(st, key, p, m) == Step(m.id, ni, true);
    ApplyParts(st, key, Step(m.id, ni, true));
    RecomputedConsistent(WithLeg(NewIntent(m.id, p.kind), p.kind, leg));
    assert KeyedBy(ni, key);
    HomeKeyOfKeyed(ni, key);
    NewIntentInv(st, key, ni);
  }

  /** Filing a new, consistent intent named after a processed message under its own key keeps the invariant. */
  lemma NewIntentInv(st: Index, key: MatchKey, ni: PairedIntent)
    requires Inv(st) && ni.intentId in st.processed && ni.intentId !in st.intents
    requires Consistent(ni) && KeyedBy(ni, key) && HomeKey(ni) == Some(key)
    ensures Inv(Index(st.intents[ni.intentId := ni], st.order + [ni.intentId],
                      st.lookup[key := Candidates(st, key) + [ni.intentId]], st.processed))
  {
    var id, cands := ni.intentId, Candidates(st, key);
    var st' := Index(st.intents[id := ni], st.order + [id], st.lookup[key := cands + [id]], st.processed);
    assert id !in st.order;
    forall a, b | 0 <= a < b < |st'.order| ensures st'.order[a] != st'.order[b] {
      if b == |st.order| {
        assert st.order[a] in st.order;
      }
    }
    forall x | x in st'.intents ensures IntentOk(st', x) {
      if x != id {
        assert IntentOk(st, x);
        var hk := HomeKey(st.intents[x]).value;
        assert x in st.lookup[hk];
        if hk == key {
          assert x in cands;
        }
      }
    }
    forall k, x | k in st'.lookup && x in st'.lookup[k] ensures x in st'.intents && KeyedBy(st'.intents[x], k) {
      if k == key && x != id {
        assert x in cands;
      }
    }
  }

  /** `processMessage` keeps the invariant. */
  lemma IngestPreservesInv(st: Index, m: MessageDetail)
    requires Inv(st)
    ensures Inv(Ingest(st, m).index)
  {
    if m.id !in st.processed {
      var marked := st.(processed := st.processed + {m.id});
      MarkPreservesInv(st, m.id);
      var r := ParseActionDetail(m.actionDetail);
      if r.Ok? && r.value.kind != Unknown {
        var p := r.value;
        var key := LookupKey(p).value;
        match FirstOpen(Candidates(marked, key), marked.intents, p.kind)
        case Some(j) => AttachPreservesInv(marked, key, p, m, j);
        case None =>
          forall x | x in marked.intents ensures x != m.id {
            assert IntentOk(st, x);
          }
          CreatePreservesInv(marked, key, p, m);
      }
    }
  }

  // ---------------------------------------------------------------------
  // What one message does

  /** A message whose id was seen before changes nothing (pairing.ts:39-41). */
  lemma IngestDuplicate(st: Index, m: MessageDetail)
    requires m.id in st.processed
    ensures Ingest(st, m) == Outcome(st, false)
  {
  }

  /** Processing a message a second time right after the first changes nothing. */
  lemma IngestIdempotent(st: Index, m: MessageDetail)
    ensures m.id in Ingest(st, m).index.processed
    ensures Ingest(Ingest(st, m).index, m) == Outcome(Ingest(st, m).index, false)
  {
  }

  /**
   * A message that is not an action line is only recorded as seen; one with
   * a malformed amount is recorded as seen and then throws.
   */
  lemma IngestUnparsed(st: Index, m: MessageDetail)
    requires m.id !in st.processed
    requires ParseActionDetail(m.actionDetail).Err? || ParseActionDetail(m.actionDetail).value.kind == Unknown
    ensures Ingest(st, m).index == st.(processed := st.processed + {m.id})
    ensures Ingest(st, m).raised <==> ParseActionDetail(m.actionDetail).Err?
  {
  }

  /** The leg sits in the slot of its kind. */
  predicate Holds(i: PairedIntent, kind: MessageType, leg: Leg) {
    if kind == Quote then i.quote == Some(leg) else i.fill == Some(leg)
  }

  /** What a later state keeps of an intent: its legs, and all of it once filled. */
  predicate Keeps(a: PairedIntent, b: PairedIntent) {
    && a.intentId == b.intentId
    && (a.quote.Some? ==> b.quote == a.quote)
    && (a.fill.Some? ==> b.fill == a.fill)
    && (a.status == Filled ==> b == a)
  }

  /**
   * Nothing is ever lost: intents stay, with their legs, and filled intents
   * are frozen; the insertion order and every lookup list only grow at the
   * end, by at most one intent; the processed set gains exactly the message id.
   */
  lemma IngestGrowth(st: Index, m: MessageDetail)
    requires Inv(st)
    ensures var st' := Ingest(st, m).index;
      && st'.processed == st.processed + {m.id}
      && st.order <= st'.order && |st'.order| <= |st.order| + 1
      && (forall id :: id in st.intents ==> id in st'.intents && Keeps(st.intents[id], st'.intents[id]))
      && (forall key :: key in st.lookup ==> key in st'.lookup && st.lookup[key] <= st'.lookup[key])
  {
    if m.id !in st.processed {
      var r := ParseActionDetail(m.actionDetail);
      if r.Ok? && r.value.kind != Unknown {
        var p := r.value;
        IngestParsed(st, m, p);
        forall id | id in st.intents ensures id != m.id && Consistent(st.intents[id]) {
          assert IntentOk(st, id);
        }
        PlaceGrowth(st, LookupKey(p).value, p, m);
      }
    }
  }

  /** Placing a leg adds at most one intent and one filed id, and completes rather than rewrites. */
  lemma PlaceGrowth(st: Index, key: MatchKey, p: ParsedMessage, m: MessageDetail)
    requires m.id !in st.intents
    requires forall id :: id in st.intents ==> Consistent(st.intents[id])
    ensures var st' := Place(st, key, p, m);
      && st'.processed == st.processed
      && st.order <= st'.order && |st'.order| <= |st.order| + 1
      && (forall id :: id in st.intents ==> id in st'.intents && Keeps(st.intents[id], st'.intents[id]))
      && (forall k :: k in st.lookup ==> k in st'.lookup && st.lookup[k] <= st'.lookup[k])
  {
    var cands := Candidates(st, key);
    match FirstOpen(cands, st.intents, p.kind)
    case Some(j) =>
      var id := cands[j];
      assert Consistent(st.intents[id]);
    case None =>
  }


  /** No stored intent with match key `key` lacks a leg of this kind. */
  ghost predicate NoneOpen(st: Index, key: MatchKey, kind: MessageType) {
    forall id :: id in st.intents && KeyedBy(st.intents[id], key) ==> !SlotOpen(st.intents[id], kind)
  }

  /**
   * `st'` is `st` plus a new intent named after `leg`'s message, appended to
   * the order and to the candidates filed under `key`, and holding just that
   * leg: pending for a quote, an orphan fill for a fill.
   */
  ghost predicate Created(st: Index, st': Index, key: MatchKey, kind: MessageType, leg: Leg) {
    && st'.order == st.order + [leg.id]
    && st'.intents.Keys == st.intents.Keys + {leg.id}
    && st'.lookup == st.lookup[key := Candidates(st, key) + [leg.id]]
    && leg.id in st'.intents
    && st'.intents[leg.id].quote == (if kind == Quote then Some(leg) else None)
    && st'.intents[leg.id].fill == (if kind == Fill then Some(leg) else None)
    && st'.intents[leg.id].status == (if kind == Quote then Pending else OrphanFill)
    && st'.intents[leg.id].slippage.None?
    && (forall x :: x in st.intents ==> x in st'.intents && st'.intents[x] == st.intents[x])
  }

  /**
   * `st'` is `st` with `leg` completing the intent filed `j`-th under `key`,
   * the first filed there that lacked a leg of this kind; nothing else changed.
   */
  ghost predicate Completed(st: Index, st': Index, key: MatchKey, kind: MessageType, leg: Leg, j: int) {
    var cands := Candidates(st, key);
    && 0 <= j < |cands|
    && cands[j] in st.intents && SlotOpen(st.intents[cands[j]], kind)
    && (forall t :: 0 <= t < j ==> !Eligible(st.intents, cands[t], kind))
    && st'.order == st.order && st'.lookup == st.lookup
    && st'.intents.Keys == st.intents.Keys
    && cands[j] in st'.intents
    && Holds(st'.intents[cands[j]], kind, leg)
    && st'.intents[cands[j]].status == Filled
    && (forall x :: x in st.intents && x != cands[j] ==> x in st'.intents && st'.intents[x] == st.intents[x])
  }

  lemma PlaceCreates(st: Index, key: MatchKey, p: ParsedMessage, m: MessageDetail)
    requires Inv(st) && m.id !in st.processed
    requires p.kind != Unknown && Complete(p) && LookupKey(p) == Some(key)
    requires FirstOpen(Candidates(st, key), st.intents, p.kind).None?
    ensures NoneOpen(st, key, p.kind)
    ensures Created(st, Place(st, key, p, m), key, p.kind, Leg(p, m.createdAt, m.id))
  {
    var cands := Candidates(st, key);
    forall id | id in st.intents ensures id != m.id {
      assert IntentOk(st, id);
    }
    forall id | id in st.intents && KeyedBy(st.intents[id], key) ensures !SlotOpen(st.intents[id], p.kind) {
      assert IntentOk(st, id);
      HomeKeyOfKeyed(st.intents[id], key);
      var t :| 0 <= t < |cands| && cands[t] == id;
    }
  }

  lemma PlaceCompletes(st: Index, key: MatchKey, p: ParsedMessage, m: MessageDetail, j: nat)
    requires Inv(st)
    requires p.kind != Unknown && Complete(p) && LookupKey(p) == Some(key)
    requires FirstOpen(Candidates(st, key), st.intents, p.kind) == Some(j)
    ensures !NoneOpen(st, key, p.kind)
    ensures Completed(st, Place(st, key, p, m), key, p.kind, Leg(p, m.createdAt, m.id), j)
  {
    var id := Candidates(st, key)[j];
    assert key in st.lookup && id in st.lookup[key];
    assert KeyedBy(st.intents[id], key);
    assert IntentOk(st, id);
    AttachConsistent(st.intents[id], p.kind, Leg(p, m.createdAt, m.id));
  }

  /** Placing a leg does not look at the processed set. */
  lemma PlaceIgnoresProcessed(st: Index, key: MatchKey, p: ParsedMessage, m: MessageDetail, seen: set<MessageId>)
    ensures Place(st.(processed := seen), key, p, m) == Place(st, key, p, m).(processed := seen)
  {
    assert Candidates(st.(processed := seen), key) == Candidates(st, key);
  }

  /** What `processMessage` does with a new message that parses as a quote or a fill. */
  lemma IngestParsed(st: Index, m: MessageDetail, p: ParsedMessage)
    requires m.id !in st.processed
    requires ParseActionDetail(m.actionDetail) == Ok(p) && p.kind != Unknown
    ensures LookupKey(p).Some?
    ensures Ingest(st, m) == Outcome(Place(st, LookupKey(p).value, p, m).(processed := st.processed + {m.id}), false)
  {
    PlaceIgnoresProcessed(st, LookupKey(p).value, p, m, st.processed + {m.id});
  }

  /**
   * Where the leg of a parsed quote or fill goes. A new intent, named after
   * the message and holding just that leg, is created exactly when no stored
   * intent with the same match key lacks a leg of this kind. Otherwise the
   * leg completes the earliest-filed such intent, and no other intent changes.
   */
  lemma IngestPlacement(st: Index, m: MessageDetail, p: ParsedMessage)
    requires Inv(st) && m.id !in st.processed
    requires ParseActionDetail(m.actionDetail) == Ok(p) && p.kind != Unknown
    ensures LookupKey(p).Some?
    ensures !Ingest(st, m).raised
    ensures var key, leg := LookupKey(p).value, Leg(p, m.createdAt, m.id);
      if NoneOpen(st, key, p.kind) then Created(st, Ingest(st, m).index, key, p.kind, leg)
      else exists j :: Completed(st, Ingest(st, m).index, key, p.kind, leg, j)
  {
    var key, leg := LookupKey(p).value, Leg(p, m.createdAt, m.id);
    IngestParsed(st, m, p);
    var placed := Place(st, key, p, m);
    var st' := Ingest(st, m).index;
    assert st'.intents == placed.intents && st'.order == placed.order && st'.lookup == placed.lookup;
    match FirstOpen(Candidates(st, key), st.intents, p.kind)
    case Some(j) =>
      PlaceCompletes(st, key, p, m, j);
      CompletedIgnoresProcessed(st, placed, st', key, p.kind, leg, j);
    case None =>
      PlaceCreates(st, key, p, m);
  }

  lemma CompletedIgnoresProcessed(st: Index, a: Index, b: Index, key: MatchKey, kind: MessageType, leg: Leg, j: int)
    requires a.intents == b.intents && a.order == b.order && a.lookup == b.lookup
    requires Completed(st, a, key, kind, leg, j)
    ensures Completed(st, b, key, kind, leg, j)
  {
  }

  /**
   * A quote and a fill with the same match key, under which nothing was
   * filed before, pair up whichever arrives first: one intent, named after
   * the first, is created and becomes filled with both legs, and its
   * slippage compares the fill's delivered amount against the quote's.
   */
  lemma OppositeLegsPair(st: Index, m1: MessageDetail, p1: ParsedMessage, m2: MessageDetail, p2: ParsedMessage)
    requires Inv(st)
    requires m1.id !in st.processed && m2.id !in st.processed && m1.id != m2.id
    requires ParseActionDetail(m1.actionDetail) == Ok(p1) && ParseActionDetail(m2.actionDetail) == Ok(p2)
    requires p1.kind != Unknown && p2.kind != Unknown && p1.kind != p2.kind
    requires LookupKey(p1) == LookupKey(p2)
    requires forall id :: id in st.intents ==> !KeyedBy(st.intents[id], LookupKey(p1).value)
    ensures var st2 := Ingest(Ingest(st, m1).index, m2).index;
      var l1, l2 := Leg(p1, m1.createdAt, m1.id), Leg(p2, m2.createdAt, m2.id);
      var q, f := if p1.kind == Quote then l1 else l2, if p1.kind == Quote then l2 else l1;
      && st2.order == st.order + [m1.id]
      && st2.intents == st.intents[m1.id := PairedIntent(m1.id, Some(q), Some(f), Filled,
                                            Some(SlippageOf(q.msg.toAmount.value, f.msg.toAmount.value)))]
  {
    NothingFiled(st, LookupKey(p1).value);
    PairOnFreshKey(st, m1, p1, m2, p2);
  }

  /** `OppositeLegsPair` once nothing is filed under the shared key. */
  lemma PairOnFreshKey(st: Index, m1: MessageDetail, p1: ParsedMessage, m2: MessageDetail, p2: ParsedMessage)
    requires m1.id !in st.processed && m2.id !in st.processed && m1.id != m2.id
    requires ParseActionDetail(m1.actionDetail) == Ok(p1) && ParseActionDetail(m2.actionDetail) == Ok(p2)
    requires p1.kind != Unknown && p2.kind != Unknown && p1.kind != p2.kind
    requires LookupKey(p1) == LookupKey(p2)
    requires Candidates(st, LookupKey(p1).value) == []
    ensures var st2 := Ingest(Ingest(st, m1).index, m2).index;
      var l1, l2 := Leg(p1, m1.createdAt, m1.id), Leg(p2, m2.createdAt, m2.id);
      var q, f := if p1.kind == Quote then l1 else l2, if p1.kind == Quote then l2 else l1;
      && st2.order == st.order + [m1.id]
      && st2.intents == st.intents[m1.id := PairedIntent(m1.id, Some(q), Some(f), Filled,
                                            Some(SlippageOf(q.msg.toAmount.value, f.msg.toAmount.value)))]
  {
    var key := LookupKey(p1).value;
    var seen1 := st.processed + {m1.id};
    IngestParsed(st, m1, p1);
    var a := Place(st, key, p1, m1);
    IngestParsed(a.(processed := seen1), m2, p2);
    PlaceIgnoresProcessed(a, key, p2, m2, seen1 + {m2.id});
    PlacePair(st, key, p1, m1, p2, m2);
  }

  /**
   * The placements of a first leg under an unused key and of an opposite
   * second leg: the first creates an intent, the second completes it.
   */
  lemma PlacePair(st: Index, key: MatchKey, p1: ParsedMessage, m1: MessageDetail, p2: ParsedMessage, m2: MessageDetail)
    requires Candidates(st, key) == []
    requires p1.kind != Unknown && p2.kind != Unknown && p1.kind != p2.kind
    requires Complete(p1) && Complete(p2)
    ensures var st2 := Place(Place(st, key, p1, m1), key, p2, m2);
      var l1, l2 := Leg(p1, m1.createdAt, m1.id), Leg(p2, m2.createdAt, m2.id);
      var q, f := if p1.kind == Quote then l1 else l2, if p1.kind == Quote then l2 else l1;
      && st2.order == st.order + [m1.id]
      && st2.intents == st.intents[m1.id := PairedIntent(m1.id, Some(q), Some(f), Filled,
                                            Some(SlippageOf(q.msg.toAmount.value, f.msg.toAmount.value)))]
  {
    var l1, l2 := Leg(p1, m1.createdAt, m1.id), Leg(p2, m2.createdAt, m2.id);
    var i1 := Recomputed(WithLeg(NewIntent(m1.id, p1.kind), p1.kind, l1));
    var i2 := Recomputed(WithLeg(i1, p2.kind, l2));
    TwoLegs(m1.id, p1.kind, l1, p2.kind, l2);
    var a := Place(st, key, p1, m1);
    assert [] + [m1.id] == [m1.id];
    assert a == st.(intents := st.intents[m1.id := i1], order := st.order + [m1.id], lookup := st.lookup[key := [m1.id]]);
    assert Candidates(a, key) == [m1.id];
    assert FirstOpen([m1.id], a.intents, p2.kind) == Some(0);
    assert st.intents[m1.id := i1][m1.id := i2] == st.intents[m1.id := i2];
  }

  /** Only intents with key `key` are filed under it. */
  lemma NothingFiled(st: Index, key: MatchKey)
    requires Inv(st)
    requires forall id :: id in st.intents ==> !KeyedBy(st.intents[id], key)
    ensures Candidates(st, key) == []
  {
    FirstFiledIsKeyed(st, key);
  }

  lemma FirstFiledIsKeyed(st: Index, key: MatchKey)
    requires Inv(st)
    ensures Candidates(st, key) != [] ==> exists id :: id in st.intents && KeyedBy(st.intents[id], key)
  {
    var c := Candidates(st, key);
    if c != [] {
      assert FiledOk(st, key);
      var id: IntentId := c[0];
      assert id in st.intents && KeyedBy(st.intents[id], key);
    }
  }

  /** The intent a quote and a fill build, in either order. */
  lemma TwoLegs(id: IntentId, k1: MessageType, l1: Leg, k2: MessageType, l2: Leg)
    requires k1 != Unknown && k2 != Unknown && k1 != k2
    requires LegOk(l1, k1) && LegOk(l2, k2)
    ensures var q, f := if k1 == Quote then l1 else l2, if k1 == Quote then l2 else l1;
      Recomputed(WithLeg(Recomputed(WithLeg(NewIntent(id, k1), k1, l1)), k2, l2))
        == PairedIntent(id, Some(q), Some(f), Filled, Some(SlippageOf(q.msg.toAmount.value, f.msg.toAmount.value)))
  {
  }

  // ---------------------------------------------------------------------
  // Messages for different routes commute

  /** Both messages are quotes or fills that would be filed under one match key. */
  predicate SameFiling(a: MessageDetail, b: MessageDetail) {
    match (ParseActionDetail(a.actionDetail), ParseActionDetail(b.actionDetail))
    case (Ok(p), Ok(q)) => p.kind != Unknown && q.kind != Unknown && LookupKey(p) == LookupKey(q)
    case _ => false
  }

  /** An intent with a leg has one key, so intents keyed differently differ. */
  lemma KeyedApart(i: PairedIntent, j: PairedIntent, ka: MatchKey, kb: MatchKey)
    requires HomeKey(i).Some? && KeyedBy(i, ka) && KeyedBy(j, kb) && ka != kb
    ensures i != j
  {
  }

  /** Under the invariant, the lists filed under two different keys share no id, and name stored intents. */
  lemma FiledApart(st: Index, ka: MatchKey, kb: MatchKey)
    requires Inv(st) && ka != kb
    ensures forall x :: x in Candidates(st, ka) ==> x in st.intents && x !in Candidates(st, kb)
  {
    var ca, cb := Candidates(st, ka), Candidates(st, kb);
    forall x | x in ca ensures x in st.intents && x !in cb {
      assert FiledOk(st, ka);
      var s :| 0 <= s < |ca| && ca[s] == x;
      assert IntentOk(st, x);
      forall t | 0 <= t < |cb| ensures cb[t] != x {
        assert FiledOk(st, kb);
        KeyedApart(st.intents[x], st.intents[cb[t]], ka, kb);
      }
    }
  }

  /** The scan for an open slot reads the intents of the candidates only. */
  lemma {:induction false} FirstOpenFrame(cands: seq<IntentId>, m1: map<IntentId, PairedIntent>,
                                          m2: map<IntentId, PairedIntent>, kind: MessageType)
    requires forall t :: 0 <= t < |cands| ==> cands[t] in m1 && cands[t] in m2 && m1[cands[t]] == m2[cands[t]]
    ensures FirstOpen(cands, m1, kind) == FirstOpen(cands, m2, kind)
  {
    if cands != [] {
      FirstOpenFrame(cands[1..], m1, m2, kind);
    }
  }

  /** Where a leg goes depends only on the list under its key and on the intents filed there. */
  lemma StepFrame(st: Index, st': Index, key: MatchKey, p: ParsedMessage, m: MessageDetail)
    requires Candidates(st', key) == Candidates(st, key)
    requires forall t :: 0 <= t < |Candidates(st, key)| ==>
      var x := Candidates(st, key)[t]; x in st.intents && x in st'.intents && st'.intents[x] == st.intents[x]
    ensures StepOf(st', key, p, m) == StepOf(st, key, p, m)
  {
    var cands := Candidates(st, key);
    FirstOpenFrame(cands, st'.intents, st.intents, p.kind);
  }

  /** Placing a leg leaves alone every stored intent not filed under its key. */
  lemma PlaceKeeps(st: Index, key: MatchKey, p: ParsedMessage, m: MessageDetail, x: IntentId)
    requires x in st.intents && x != m.id && x !in Candidates(st, key)
    ensures x in Place(st, key, p, m).intents && Place(st, key, p, m).intents[x] == st.intents[x]
  {
  }

  /** What a step writes into each part of the state. */
  lemma ApplyParts(st: Index, key: MatchKey, s: Step)
    ensures Apply(st, key, s).intents == st.intents[s.target := s.value]
    ensures Apply(st, key, s).order == st.order + (if s.created then [s.target] else [])
    ensures Apply(st, key, s).lookup ==
      (if s.created then st.lookup[key := Candidates(st, key) + [s.target]] else st.lookup)
    ensures Apply(st, key, s).processed == st.processed
  {
  }

  /** Steps writing different intents under different keys commute, up to the order of new intents. */
  lemma ApplyCommutes(st: Index, ka: MatchKey, sa: Step, kb: MatchKey, sb: Step)
    requires ka != kb && sa.target != sb.target
    ensures var ab, ba := Apply(Apply(st, ka, sa), kb, sb), Apply(Apply(st, kb, sb), ka, sa);
      && ab.intents == ba.intents && ab.lookup == ba.lookup && ab.processed == ba.processed
      && multiset(ab.order) == multiset(ba.order)
  {
    var A, B := Apply(st, ka, sa), Apply(st, kb, sb);
    ApplyParts(st, ka, sa);
    ApplyParts(st, kb, sb);
    ApplyParts(A, kb, sb);
    ApplyParts(B, ka, sa);
    UpdatesCommute(st.intents, sa.target, sa.value, sb.target, sb.value);
    var na, nb := if sa.created then [sa.target] else [], if sb.created then [sb.target] else [];
    AppendsCommute(st.order, na, nb);
    var ca, cb := Candidates(st, ka), Candidates(st, kb);
    assert Candidates(A, kb) == cb;
    assert Candidates(B, ka) == ca;
    if sa.created && sb.created {
      UpdatesCommute(st.lookup, ka, ca + [sa.target], kb, cb + [sb.target]);
    }
  }

  lemma UpdatesCommute<K, V>(m: map<K, V>, a: K, x: V, b: K, y: V)
    requires a != b
    ensures m[a := x][b := y] == m[b := y][a := x]
  {
  }

  lemma AppendsCommute<T>(s: seq<T>, u: seq<T>, v: seq<T>)
    ensures multiset(s + u + v) == multiset(s + v + u)
  {
  }

  /**
   * Two legs placed under different keys, by messages with different ids,
   * land in the same intents whichever is placed first; only the insertion
   * order of the intents they create may differ.
   */
  lemma PlaceCommutes(st: Index, ka: MatchKey, pa: ParsedMessage, a: MessageDetail,
                      kb: MatchKey, pb: ParsedMessage, b: MessageDetail)
    requires Inv(st) && ka != kb && a.id != b.id
    requires a.id !in st.intents && b.id !in st.intents
    ensures var ab, ba := Place(Place(st, ka, pa, a), kb, pb, b), Place(Place(st, kb, pb, b), ka, pa, a);
      && ab.intents == ba.intents && ab.lookup == ba.lookup && ab.processed == ba.processed
      && multiset(ab.order) == multiset(ba.order)
  {
    var A, B := Place(st, ka, pa, a), Place(st, kb, pb, b);
    var sa, sb := StepOf(st, ka, pa, a), StepOf(st, kb, pb, b);
    FiledApart(st, ka, kb);
    FiledApart(st, kb, ka);
    var ca, cb := Candidates(st, ka), Candidates(st, kb);
    forall t | 0 <= t < |cb| ensures cb[t] in st.intents && cb[t] in A.intents && A.intents[cb[t]] == st.intents[cb[t]] {
      assert cb[t] in cb;
      PlaceKeeps(st, ka, pa, a, cb[t]);
    }
    forall t | 0 <= t < |ca| ensures ca[t] in st.intents && ca[t] in B.intents && B.intents[ca[t]] == st.intents[ca[t]] {
      assert ca[t] in ca;
      PlaceKeeps(st, kb, pb, b, ca[t]);
    }
    StepFrame(st, A, kb, pb, b);
    StepFrame(st, B, ka, pa, a);
    ApplyCommutes(st, ka, sa, kb, sb);
  }

  /** The message is a quote or a fill: `processMessage` files it under its key. */
  predicate Files(m: MessageDetail) {
    ParseActionDetail(m.actionDetail).Ok? && ParseActionDetail(m.actionDetail).value.kind != Unknown
  }

  /** Every stored intent is named after a processed message. */
  lemma UnseenUnstored(st: Index, id: MessageId)
    requires Inv(st) && id !in st.processed
    ensures id !in st.intents
  {
    forall x | x in st.intents ensures x in st.processed {
      assert IntentOk(st, x);
    }
  }

  /** Two new quotes or fills in a row: two placements, then both ids recorded. */
  lemma TwoFiled(st: Index, a: MessageDetail, b: MessageDetail)
    requires a.id != b.id && a.id !in st.processed && b.id !in st.processed
    requires Files(a) && Files(b)
    ensures LookupKey(ParseActionDetail(a.actionDetail).value).Some?
    ensures LookupKey(ParseActionDetail(b.actionDetail).value).Some?
    ensures var pa, pb := ParseActionDetail(a.actionDetail).value, ParseActionDetail(b.actionDetail).value;
      var ab, placed := Ingest(Ingest(st, a).index, b).index, Place(Place(st, LookupKey(pa).value, pa, a), LookupKey(pb).value, pb, b);
      ab.intents == placed.intents && ab.lookup == placed.lookup && ab.order == placed.order
  {
    var pa, pb := ParseActionDetail(a.actionDetail).value, ParseActionDetail(b.actionDetail).value;
    IngestParsed(st, a, pa);
    var A := Place(st, LookupKey(pa).value, pa, a);
    IngestParsed(A.(processed := st.processed + {a.id}), b, pb);
    PlaceIgnoresProcessed(A, LookupKey(pb).value, pb, b, st.processed + {a.id});
  }

  /** A filed message and one that is only recorded as seen. */
  lemma OneFiledCommute(st: Index, a: MessageDetail, b: MessageDetail)
    requires a.id != b.id && a.id !in st.processed && b.id !in st.processed
    requires Files(a) && !Files(b)
    ensures Ingest(Ingest(st, a).index, b).index == Ingest(Ingest(st, b).index, a).index
  {
    var pa := ParseActionDetail(a.actionDetail).value;
    var sb := st.(processed := st.processed + {b.id});
    IngestParsed(st, a, pa);
    IngestParsed(sb, a, pa);
    var A := Place(st, LookupKey(pa).value, pa, a);
    IngestUnparsed(A.(processed := st.processed + {a.id}), b);
    IngestUnparsed(st, b);
    PlaceIgnoresProcessed(st, LookupKey(pa).value, pa, a, sb.processed + {a.id});
    PlaceIgnoresProcessed(st, LookupKey(pa).value, pa, a, st.processed + {a.id} + {b.id});
  }

  /** Two new quotes or fills under different keys. */
  lemma BothFiledCommute(st: Index, a: MessageDetail, b: MessageDetail)
    requires Inv(st) && a.id != b.id && a.id !in st.processed && b.id !in st.processed
    requires Files(a) && Files(b) && !SameFiling(a, b)
    ensures var ab, ba := Ingest(Ingest(st, a).index, b).index, Ingest(Ingest(st, b).index, a).index;
      && ab.intents == ba.intents && ab.lookup == ba.lookup && ab.processed == ba.processed
      && multiset(ab.order) == multiset(ba.order)
  {
    UnseenUnstored(st, a.id);
    UnseenUnstored(st, b.id);
    var pa, pb := ParseActionDetail(a.actionDetail).value, ParseActionDetail(b.actionDetail).value;
    TwoFiled(st, a, b);
    TwoFiled(st, b, a);
    PlaceCommutes(st, LookupKey(pa).value, pa, a, LookupKey(pb).value, pb, b);
  }

  /** Two new messages neither of which is filed: both are only recorded as seen. */
  lemma NoneFiledCommute(st: Index, a: MessageDetail, b: MessageDetail)
    requires a.id != b.id && a.id !in st.processed && b.id !in st.processed
    requires !Files(a) && !Files(b)
    ensures Ingest(Ingest(st, a).index, b).index == Ingest(Ingest(st, b).index, a).index
  {
    IngestUnparsed(st, a);
    IngestUnparsed(st, b);
    IngestUnparsed(st.(processed := st.processed + {a.id}), b);
    IngestUnparsed(st.(processed := st.processed + {b.id}), a);
  }

  /**
   * `processMessage` on two messages with different ids gives the same
   * intents, lookup lists and processed ids in either order, unless both are
   * quotes or fills with one match key (then the first one wins the open
   * slot); only the insertion order of new intents may differ.
   */
  lemma IngestCommutes(st: Index, a: MessageDetail, b: MessageDetail)
    requires Inv(st) && a.id != b.id && !SameFiling(a, b)
    ensures var ab, ba := Ingest(Ingest(st, a).index, b).index, Ingest(Ingest(st, b).index, a).index;
      && ab.intents == ba.intents && ab.lookup == ba.lookup && ab.processed == ba.processed
      && multiset(ab.order) == multiset(ba.order)
  {
    if a.id !in st.processed && b.id !in st.processed {
      if Files(a) && Files(b) {
        BothFiledCommute(st, a, b);
      } else if Files(a) {
        OneFiledCommute(st, a, b);
      } else if Files(b) {
        OneFiledCommute(st, b, a);
      } else {
        NoneFiledCommute(st, a, b);
      }
    }
  }

  // ---------------------------------------------------------------------
  // Batches

  lemma {:induction false} IngestAllPreservesInv(st: Index, ms: seq<MessageDetail>)
    requires Inv(st)
    ensures Inv(IngestAll(st, ms).index)
    decreases |ms|
  {
    if ms != [] {
      IngestPreservesInv(st, ms[0]);
      if !Ingest(st, ms[0]).raised {
        IngestAllPreservesInv(Ingest(st, ms[0]).index, ms[1..]);
      }
    }
  }

  /** A batch run to its end has recorded every one of its message ids, and forgets none. */
  lemma {:induction false} IngestAllMarks(st: Index, ms: seq<MessageDetail>)
    ensures st.processed <= IngestAll(st, ms).index.processed
    ensures !IngestAll(st, ms).raised ==>
      forall i :: 0 <= i < |ms| ==> ms[i].id in IngestAll(st, ms).index.processed
    decreases |ms|
  {
    if ms != [] {
      var o := Ingest(st, ms[0]);
      if !o.raised {
        IngestAllMarks(o.index, ms[1..]);
        assert IngestAll(st, ms) == IngestAll(o.index, ms[1..]);
        assert ms[0].id in o.index.processed;
        if !IngestAll(st, ms).raised {
          forall i | 0 <= i < |ms| ensures ms[i].id in IngestAll(st, ms).index.processed {
            if i > 0 {
              assert ms[i] == ms[1..][i - 1];
            }
          }
        }
      }
    }
  }

  /** A batch whose every id was seen before changes nothing. */
  lemma {:induction false} AllSeenNoOp(st: Index, ms: seq<MessageDetail>)
    requires forall i :: 0 <= i < |ms| ==> ms[i].id in st.processed
    ensures IngestAll(st, ms) == Outcome(st, false)
    decreases |ms|
  {
    if ms != [] {
      assert Ingest(st, ms[0]) == Outcome(st, false);
      forall i | 0 <= i < |ms[1..]| ensures ms[1..][i].id in st.processed {
        assert ms[1..][i] == ms[i + 1];
      }
      AllSeenNoOp(st, ms[1..]);
    }
  }

  lemma BatchPreservesInv(st: Index, ms: seq<MessageDetail>)
    requires Inv(st)
    ensures Inv(ProcessBatch(st, ms).index)
  {
    IngestAllPreservesInv(st, SortBy(ms, IdOf));
  }

  /** Delivering the same batch again, after it went through, changes nothing. */
  lemma BatchIdempotent(st: Index, ms: seq<MessageDetail>)
    requires !ProcessBatch(st, ms).raised
    ensures ProcessBatch(ProcessBatch(st, ms).index, ms) == Outcome(ProcessBatch(st, ms).index, false)
  {
    var sorted := SortBy(ms, IdOf);
    var st' := ProcessBatch(st, ms).index;
    IngestAllMarks(st, sorted);
    AllSeenNoOp(st', sorted);
  }

  /**
   * The order in which a batch is delivered does not matter when no two of
   * its messages share an id: the batch is processed in id order.
   */
  lemma BatchOrderIndependent(st: Index, a: seq<MessageDetail>, b: seq<MessageDetail>)
    requires multiset(a) == multiset(b)
    requires forall i, j :: 0 <= i < j < |a| ==> a[i].id != a[j].id
    ensures ProcessBatch(st, a) == ProcessBatch(st, b)
  {
    forall x, y | x in multiset(a) && y in multiset(a) && IdOf(x) == IdOf(y) ensures x == y {
      var i :| 0 <= i < |a| && a[i] == x;
      var j :| 0 <= j < |a| && a[j] == y;
      assert i == j;
    }
    SortedUnique(SortBy(a, IdOf), SortBy(b, IdOf), IdOf);
  }
}
