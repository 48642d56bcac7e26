/**
 * The class `PairingService` of lib/sodax/pairing.ts: three collections it
 * updates in place, the message loop, the candidate scan and the in-place
 * status update, each proved to do what the functions of `Correlation` and
 * `Intents` say.
 */
module Service {
  import opened Wrappers
  import opened Parser
  import opened Intents
  import opened Correlation
  import opened Reports
  import opened Sorting

  class PairingService {
    var intents: map<IntentId, PairedIntent>
    /** The insertion order of `intents`, which a JavaScript `Map` keeps. */
    var order: seq<IntentId>
    var lookup: map<MatchKey, seq<IntentId>>
    var processedMessageIds: set<MessageId>

    function State(): Index
      reads this
    {
      Index(intents, order, lookup, processedMessageIds)
    }

    ghost predicate Valid()
      reads this
    {
      Inv(State())
    }

    constructor()
      ensures State() == Empty
      ensures Valid()
    {
      intents := map[];
      order := [];
      lookup := map[];
      processedMessageIds := {};
      new;
      EmptyInv();
    }

    /**
     * Processes the batch in ascending id order. A malformed amount throws,
     * which leaves the rest of the batch unprocessed; `raised` reports it.
     */
    method ProcessMessages(messages: seq<MessageDetail>) returns (raised: bool)
      modifies this
      ensures Outcome(State(), raised) == ProcessBatch(old(State()), messages)
      ensures old(Valid()) ==> Valid()
    {
      var sorted := SortBy(messages, IdOf);
      ghost var start := State();
      var i := 0;
      while i < |sorted|
        invariant 0 <= i <= |sorted|
        invariant IngestAll(start, sorted) == IngestAll(State(), sorted[i..])
      {
        assert sorted[i..] == [sorted[i]] + sorted[i + 1..];
        raised := ProcessMessage(sorted[i]);
        if raised {
          assert IngestAll(start, sorted) == Outcome(State(), true);
          BatchInv(start, messages);
          return;
        }
        i := i + 1;
      }
      raised := false;
      BatchInv(start, messages);
    }

    lemma BatchInv(start: Index, messages: seq<MessageDetail>)
      ensures Inv(start) ==> Inv(ProcessBatch(start, messages).index)
    {
      if Inv(start) {
        BatchPreservesInv(start, messages);
      }
    }

    /**
     * Records the message as seen, parses it and, for a quote or a fill,
     * attaches its leg to the first candidate under its key that lacks one,
     * or to a new intent, then updates that intent's status and slippage.
     */
    method ProcessMessage(msg: MessageDetail) returns (raised: bool)
      modifies this
      ensures Outcome(State(), raised) == Ingest(old(State()), msg)
    {
      if msg.id in processedMessageIds {
        return false;
      }
      ghost var before := State();
      processedMessageIds := processedMessageIds + {msg.id};

      var parsed := ParseActionDetail(msg.actionDetail);
      if parsed.Err? {
        return true;
      }
      var p := parsed.value;
      if p.kind == Unknown {
        return false;
      }
      // A quote or a fill is complete, so it always has a key.
      var key := LookupKey(p).value;
      IngestParsed(before, msg, p);
      PlaceIgnoresProcessed(before, key, p, msg, processedMessageIds);
      PlaceLeg(key, p, msg);
      return false;
    }

    /**
     * Gives the leg of `msg` to the first intent filed under `key` that lacks
     * one of its kind, or to a new intent filed there (pairing.ts:50-99).
     */
    method PlaceLeg(key: MatchKey, p: ParsedMessage, msg: MessageDetail)
      modifies this
      ensures State() == Place(old(State()), key, p, msg)
    {
      var candidates := if key in lookup then lookup[key] else [];
      var intentId := FindCandidate(candidates, p.kind);
      var id: IntentId;
      if intentId.None? {
        id := msg.id;
        FileNew(id, key, p.kind);
      } else {
        id := intentId.value;
      }
      AttachLeg(id, p.kind, Leg(p, msg.createdAt, msg.id));
    }

    /** Creates the intent `id` for a first leg of this kind and files it under `key`. */
    method FileNew(id: IntentId, key: MatchKey, kind: MessageType)
      modifies this
      ensures intents == old(intents)[id := NewIntent(id, kind)]
      ensures order == old(order) + [id]
      ensures lookup == old(lookup)[key := Candidates(old(State()), key) + [id]]
      ensures processedMessageIds == old(processedMessageIds)
    {
      intents := intents[id := NewIntent(id, kind)];
      order := order + [id];
      var list := if key in lookup then lookup[key] else [];
      lookup := lookup[key := list + [id]];
    }

    /** Puts the leg in its slot of intent `id` and updates status and slippage. */
    method AttachLeg(id: IntentId, kind: MessageType, leg: Leg)
      requires id in intents
      modifies this
      ensures intents == old(intents)[id := Recomputed(WithLeg(old(intents)[id], kind, leg))]
      ensures order == old(order) && lookup == old(lookup)
      ensures processedMessageIds == old(processedMessageIds)
    {
      if kind == Quote {
        intents := intents[id := intents[id].(quote := Some(leg))];
      } else if kind == Fill {
        intents := intents[id := intents[id].(fill := Some(leg))];
      }
      UpdateStatusAndSlippage(id);
    }

    /** The first candidate that lacks a leg of this kind: the scan at pairing.ts:56-69. */
    method FindCandidate(candidates: seq<IntentId>, kind: MessageType) returns (intentId: Option<IntentId>)
      ensures intentId.None? <==> FirstOpen(candidates, intents, kind).None?
      ensures intentId.Some? ==> intentId.value == candidates[FirstOpen(candidates, intents, kind).value]
    {
      intentId := None;
      var j := 0;
      while j < |candidates|
        invariant 0 <= j <= |candidates|
        invariant intentId.None?
        invariant forall t :: 0 <= t < j ==> !Eligible(intents, candidates[t], kind)
      {
        var id := candidates[j];
        if id !in intents {
          j := j + 1;
          continue;
        }
        var existing := intents[id];
        if kind == Quote && existing.quote.None? {
          intentId := Some(id);
          break;
        } else if kind == Fill && existing.fill.None? {
          intentId := Some(id);
          break;
        }
        j := j + 1;
      }
      assert intentId.Some? ==> FirstOpen(candidates, intents, kind) == Some(j) && intentId.value == candidates[j];
    }

    /** Sets the status from the legs present and, for a filled intent, the slippage. */
    method UpdateStatusAndSlippage(id: IntentId)
      requires id in intents
      modifies this
      ensures intents == old(intents)[id := Recomputed(old(intents)[id])]
      ensures order == old(order) && lookup == old(lookup)
      ensures processedMessageIds == old(processedMessageIds)
    {
      var intent := intents[id];
      if intent.quote.Some? && intent.fill.Some? {
        intent := intent.(status := Filled);
        var quoteAmt, fillAmt := intent.quote.value.msg.toAmount, intent.fill.value.msg.toAmount;
        if quoteAmt.Some? && fillAmt.Some? {
          intent := intent.(slippage := Some(SlippageOf(quoteAmt.value, fillAmt.value)));
        }
      } else if intent.fill.Some? && intent.quote.None? {
        intent := intent.(status := OrphanFill);
      } else if intent.quote.Some? && intent.fill.None? {
        intent := intent.(status := Pending);
      }
      intents := intents[id := intent];
    }

    /** `getIntents`: every stored intent exactly once, latest activity first. */
    function GetIntents(): (r: seq<PairedIntent>)
      requires Valid()
      reads this
      ensures multiset(r) == multiset(Stored(intents, order))
      ensures forall a, b :: 0 <= a < b < |r| ==> RecentTime(r[a]) >= RecentTime(r[b])
      ensures forall id :: id in intents ==> multiset(r)[intents[id]] == 1
      ensures forall x :: x in r ==> x.intentId in intents && intents[x.intentId] == x
      ensures |r| == |intents|
    {
      ListsEachOnce(State());
      ListsOnlyStored(State());
      ListsAll(State());
      ListIntents(State())
    }

    /**
     * `getStats`: `None` stands for the source's `null`, returned when no
     * stored intent is filled with a slippage; otherwise the count of those
     * intents and the mean, largest and smallest of their percentages.
     */
    function GetStats(): (r: Option<Stats>)
      requires Valid()
      reads this
      ensures r.None? <==> forall id :: id in intents ==> !Reported(intents[id])
      ensures r.Some? ==> r.value.count == |set id | id in intents && Reported(intents[id])|
      ensures r.Some? ==> r.value.minPct <= r.value.avgPct <= r.value.maxPct
    {
      StatsNullIff(State());
      StatsCountsReported(State());
      ServiceStats(State())
    }
  }
}
