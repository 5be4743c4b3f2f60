/** The settle command: one transaction over many items. It loads consumer and rows once,
    skips repeats of a token, and plans every item against that entry snapshot. */
module SettleBatch {
  import opened Delivery
  import opened Broker
  import opened Settlement

  /** One request item; `sink` is what the dead sink would answer if the item dies, which
      the copy budget may change from one item to the next. */
  datatype Item = Item(token: Token, verb: Verb, nak: NakDelay, sink: bool)

  datatype Answer = Answered(status: Status) | Refused

  datatype Batch = Committed(s: State, answers: seq<Answer>) | RolledBack

  function PlanFor(s: State, it: Item, j: Jitter, now: int): Plan {
    SettlePlan(s, it.token, it.verb, it.nak, j, now)
  }

  function AnswerOf(plan: Plan): Answer {
    if plan.BadRequest? then Refused else Answered(plan.status)
  }

  /** What the batch is meant to do: each first occurrence of a token settled in request
      order, every one planned against the live table. */
  function OneByOne(s: State, items: seq<Item>, at: nat, seen: set<Token>, j: Jitter, now: int): Settled
    requires at <= |items|
    decreases |items| - at
  {
    if at == |items| then Done(s)
    else if items[at].token in seen then OneByOne(s, items, at + 1, seen, j, now)
    else
      var it := items[at];
      match ApplySettle(s, it.token, PlanFor(s, it, j, now), it.sink)
      case Abort => Abort
      case Done(s') => OneByOne(s', items, at + 1, seen + {it.token}, j, now)
  }

  /** The live state differs from the snapshot only in rows whose one effective token has
      already been used, and only settle's own fields moved. */
  ghost predicate Tracks(s0: State, s: State, seen: set<Token>) {
    && s == s0.(rows := s.rows, finished := s.finished, removals := s.removals)
    && (forall q | q in s.rows :: q in s0.rows && s.rows[q].attempts == s0.rows[q].attempts
                                  && s.rows[q].generation == s0.rows[q].generation)
    && (forall q | q in s0.rows && Token(q, s0.rows[q].attempts, s0.generation) !in seen ::
          q in s.rows && s.rows[q] == s0.rows[q])
  }

  /** For an unused token, the snapshot plan does to the live table what the live plan
      does, and the tracking relation is kept. */
  lemma SnapshotIsSafe(s0: State, s: State, seen: set<Token>, it: Item, j: Jitter, now: int)
    requires Tracks(s0, s, seen) && it.token !in seen
    ensures var r := ApplySettle(s, it.token, PlanFor(s0, it, j, now), it.sink);
            && r == ApplySettle(s, it.token, PlanFor(s, it, j, now), it.sink)
            && (r.Done? ==> Tracks(s0, r.s, seen + {it.token}))
  {
    var q := it.token.seqNo;
    if q in s0.rows && it.token == Token(q, s0.rows[q].attempts, s0.generation) {
      assert PlanFor(s0, it, j, now) == PlanFor(s, it, j, now);
    } else {
      assert ApplySettle(s, it.token, PlanFor(s0, it, j, now), it.sink) == Done(s);
      assert ApplySettle(s, it.token, PlanFor(s, it, j, now), it.sink) == Done(s);
    }
  }

  /** The answers are the snapshot's. They are also the live table's, except for a token
      of another attempt on a row that an earlier item of the batch removed: the snapshot
      calls it a stale attempt where the live table would call it settled. */
  lemma AnswersAgreeIff(s0: State, s: State, seen: set<Token>, it: Item, j: Jitter, now: int)
    requires Tracks(s0, s, seen) && it.token !in seen
    ensures var q := it.token.seqNo;
            AnswerOf(PlanFor(s0, it, j, now)) == AnswerOf(PlanFor(s, it, j, now)) <==>
            !(it.token.generation == s0.generation && q in s0.rows && q !in s.rows
              && it.token.attempt != s0.rows[q].attempts)
  {
  }

  ghost function TokensBefore(items: seq<Item>, n: nat): set<Token>
    requires n <= |items|
  {
    set k | 0 <= k < n :: items[k].token
  }

  ghost function Expected(s0: State, items: seq<Item>, i: nat, j: Jitter, now: int): Answer
    requires i < |items|
  {
    if items[i].token in TokensBefore(items, i) then Answered(Stale) else AnswerOf(PlanFor(s0, items[i], j, now))
  }

  /** The first occurrence of each token is answered by the snapshot, a repeat as stale. */
  ghost predicate AnsweredFrom(s0: State, items: seq<Item>, answers: seq<Answer>, j: Jitter, now: int) {
    && |answers| <= |items|
    && forall i | 0 <= i < |answers| :: answers[i] == Expected(s0, items, i, j, now)
  }

  lemma AnswerNext(s0: State, items: seq<Item>, answers: seq<Answer>, j: Jitter, now: int)
    requires |answers| < |items| && AnsweredFrom(s0, items, answers, j, now)
    ensures AnsweredFrom(s0, items, answers + [Expected(s0, items, |answers|, j, now)], j, now)
    ensures TokensBefore(items, |answers| + 1) == TokensBefore(items, |answers|) + {items[|answers|].token}
  {
  }

  /** The command, with its entry snapshot `s0`: the tables end as if every item had been
      planned against the live ones, or everything is rolled back. */
  method ApplyBatch(s0: State, items: seq<Item>, j: Jitter, now: int) returns (r: Batch)
    ensures r.RolledBack? <==> OneByOne(s0, items, 0, {}, j, now).Abort?
    ensures r.Committed? ==> OneByOne(s0, items, 0, {}, j, now) == Done(r.s)
    ensures r.Committed? ==> |r.answers| == |items| && AnsweredFrom(s0, items, r.answers, j, now)
  {
    var s := s0;
    var seen: set<Token> := {};
    var answers: seq<Answer> := [];
    for i := 0 to |items|
      invariant Tracks(s0, s, seen)
      invariant OneByOne(s0, items, 0, {}, j, now) == OneByOne(s, items, i, seen, j, now)
      invariant seen == TokensBefore(items, i)
      invariant |answers| == i && AnsweredFrom(s0, items, answers, j, now)
    {
      var it := items[i];
      AnswerNext(s0, items, answers, j, now);
      if it.token in seen {
        answers := answers + [Answered(Stale)];
      } else {
        var plan := PlanFor(s0, it, j, now);
        SnapshotIsSafe(s0, s, seen, it, j, now);
        match ApplySettle(s, it.token, plan, it.sink)
        case Abort => return RolledBack;
        case Done(s') =>
          s := s';
          seen := seen + {it.token};
          answers := answers + [AnswerOf(plan)];
      }
    }
    r := Committed(s, answers);
  }

  /** What each item is told, and exactly when. */
  lemma AnswerIs(s: State, it: Item, j: Jitter, now: int)
    ensures var a, q := AnswerOf(PlanFor(s, it, j, now)), it.token.seqNo;
            && (a == Answered(WrongGen) <==> it.token.generation != s.generation)
            && (a == Answered(Stale) <==> it.token.generation == s.generation && q !in s.rows && q < s.cursor)
            && (a == Answered(Unknown) <==> it.token.generation == s.generation && q !in s.rows && q >= s.cursor)
            && (a == Answered(StaleAck) <==>
                  && it.token.generation == s.generation && q in s.rows
                  && (it.token.attempt != s.rows[q].attempts || (it.verb == ExtendVerb && s.rows[q].state == Ready)))
            && (a == Refused ==> Fits(s, it.token) && (it.verb == OtherVerb || it.verb == NakVerb || it.verb == ExtendVerb))
  {
    AnswersExactly(s, it.token, it.verb, it.nak, j, now);
  }

  /** A batch is its items settled one after another: the last one is a settle of its own on
      what the others left, unless its token was used before; an abort is the end of it. */
  lemma {:induction false} BatchSnoc(s: State, items: seq<Item>, at: nat, seen: set<Token>, last: Item, j: Jitter, now: int)
    requires at <= |items|
    ensures var before := OneByOne(s, items, at, seen, j, now);
            var repeated := last.token in seen || exists i :: at <= i < |items| && items[i].token == last.token;
            OneByOne(s, items + [last], at, seen, j, now) ==
            if before.Abort? || repeated then before
            else SettleResult(before.s, last.token, last.verb, last.nak, j, now, last.sink)
    decreases |items| - at
  {
    var longer := items + [last];
    if at < |items| {
      var it := items[at];
      assert longer[at] == it;
      if it.token in seen {
        BatchSnoc(s, items, at + 1, seen, last, j, now);
      } else {
        var r := ApplySettle(s, it.token, PlanFor(s, it, j, now), it.sink);
        if r.Done? {
          BatchSnoc(r.s, items, at + 1, seen + {it.token}, last, j, now);
        }
      }
    } else {
      assert longer[at] == last;
      if last.token !in seen {
        var r := ApplySettle(s, last.token, PlanFor(s, last, j, now), last.sink);
        assert r.Done? ==> OneByOne(r.s, longer, at + 1, seen + {last.token}, j, now) == r;
      } else {
        assert OneByOne(s, longer, at + 1, seen, j, now) == Done(s);
      }
    }
  }

  /** Repeating tokens changes nothing: a batch and its first occurrences end alike. */
  lemma RepeatsAreIgnored(s: State, items: seq<Item>, at: nat, seen: set<Token>, extra: Item, j: Jitter, now: int)
    requires at <= |items|
    requires extra.token in seen || exists i :: at <= i < |items| && items[i].token == extra.token
    ensures OneByOne(s, items + [extra], at, seen, j, now) == OneByOne(s, items, at, seen, j, now)
  {
    BatchSnoc(s, items, at, seen, extra, j, now);
  }
}
