/** Lists of supply sources of the planning snapshot: merging into them and consuming from them (backend/app/service.py). */
module PlanningSources {
  import opened Wrappers
  import opened Seqs

  /** Everything that tells sources apart; two sources with one tag are merged. */
  datatype Tag = Tag(
    sourceType: string, refId: Option<int>, projectId: Option<int>, date: Option<string>, status: Option<string>, title: string)

  datatype Source = Source(tag: Tag, quantity: int)

  // ---------- quantities of a list ----------

  /** The quantity of the sources whose tag is chosen. */
  function Amount(chosen: Tag -> bool, sources: seq<Source>): int {
    if sources == [] then 0
    else (if chosen(sources[0].tag) then sources[0].quantity else 0) + Amount(chosen, sources[1..])
  }

  function Any(tag: Tag): bool {
    true
  }

  predicate AllPositive(sources: seq<Source>) {
    forall i :: 0 <= i < |sources| ==> sources[i].quantity > 0
  }

  /** Every tag of the list is allowed. */
  predicate Only(allowed: Tag -> bool, sources: seq<Source>) {
    forall i :: 0 <= i < |sources| ==> allowed(sources[i].tag)
  }

  lemma {:induction false} AmountNonNegative(chosen: Tag -> bool, sources: seq<Source>)
    requires AllPositive(sources)
    ensures Amount(chosen, sources) >= 0
    ensures Amount(Any, sources) == 0 <==> sources == []
  {
    if sources != [] {
      AmountNonNegative(chosen, sources[1..]);
      AmountNonNegative(Any, sources[1..]);
    }
  }

  // ---------- merging ----------

  function Merged(target: seq<Source>, source: Source): seq<Source> {
    if target == [] then [source]
    else if target[0].tag == source.tag then [target[0].(quantity := target[0].quantity + source.quantity)] + target[1..]
    else [target[0]] + Merged(target[1..], source)
  }

  /** Sources without quantity are dropped. */
  function Append(target: seq<Source>, source: Source): seq<Source> {
    if source.quantity <= 0 then target else Merged(target, source)
  }

  function AppendAll(target: seq<Source>, sources: seq<Source>): seq<Source>
    decreases |sources|
  {
    if sources == [] then target else AppendAll(Append(target, sources[0]), sources[1..])
  }

  method AppendPlanningSource(target: seq<Source>, source: Source) returns (r: seq<Source>)
    ensures r == Append(target, source)
  {
    if source.quantity <= 0 {
      return target;
    }
    for i := 0 to |target|
      invariant forall j :: 0 <= j < i ==> target[j].tag != source.tag
    {
      if target[i].tag == source.tag {
        MergedAt(target, source, i);
        return target[i := target[i].(quantity := target[i].quantity + source.quantity)];
      }
    }
    MergedLast(target, source);
    return target + [source];
  }

  lemma {:induction false} MergedAt(target: seq<Source>, source: Source, i: nat)
    requires i < |target| && target[i].tag == source.tag && forall j :: 0 <= j < i ==> target[j].tag != source.tag
    ensures Merged(target, source) == target[i := target[i].(quantity := target[i].quantity + source.quantity)]
  {
    if i > 0 {
      MergedAt(target[1..], source, i - 1);
    }
  }

  lemma {:induction false} MergedLast(target: seq<Source>, source: Source)
    requires forall j :: 0 <= j < |target| ==> target[j].tag != source.tag
    ensures Merged(target, source) == target + [source]
  {
    if target != [] {
      MergedLast(target[1..], source);
    }
  }

  lemma {:induction false} MergedAmount(chosen: Tag -> bool, target: seq<Source>, source: Source)
    ensures Amount(chosen, Merged(target, source))
            == Amount(chosen, target) + if chosen(source.tag) then source.quantity else 0
  {
    if target == [] {
      assert [source][1..] == [];
    } else if target[0].tag != source.tag {
      MergedAmount(chosen, target[1..], source);
      assert Merged(target, source)[1..] == Merged(target[1..], source);
    } else {
      assert Merged(target, source)[1..] == target[1..];
    }
  }

  /** Merging keeps quantities, positive ones positive, and tags allowed. */
  lemma {:induction false} MergedKeeps(allowed: Tag -> bool, target: seq<Source>, source: Source)
    requires AllPositive(target) && source.quantity > 0 && Only(allowed, target) && allowed(source.tag)
    ensures AllPositive(Merged(target, source)) && Only(allowed, Merged(target, source))
  {
    if target != [] && target[0].tag != source.tag {
      MergedKeeps(allowed, target[1..], source);
    }
  }

  lemma {:induction false} AppendedAmount(chosen: Tag -> bool, target: seq<Source>, sources: seq<Source>)
    ensures Amount(chosen, AppendAll(target, sources)) == Amount(chosen, target) + Amount(chosen, Positive(sources))
    decreases |sources|
  {
    if sources != [] {
      AppendedAmount(chosen, Append(target, sources[0]), sources[1..]);
      if sources[0].quantity > 0 {
        MergedAmount(chosen, target, sources[0]);
        AmountFirst(chosen, sources[0], Positive(sources[1..]));
      } else {
        assert [] + Positive(sources[1..]) == Positive(sources[1..]);
      }
    }
  }

  lemma {:induction false} AppendedKeeps(allowed: Tag -> bool, target: seq<Source>, sources: seq<Source>)
    requires AllPositive(target) && Only(allowed, target) && Only(allowed, sources)
    ensures AllPositive(AppendAll(target, sources)) && Only(allowed, AppendAll(target, sources))
    decreases |sources|
  {
    if sources != [] {
      if sources[0].quantity > 0 {
        MergedKeeps(allowed, target, sources[0]);
      }
      AppendedKeeps(allowed, Append(target, sources[0]), sources[1..]);
    }
  }

  // ---------- consuming ----------

  function Min(a: int, b: int): int {
    if a <= b then a else b
  }

  function Positive(sources: seq<Source>): seq<Source> {
    if sources == [] then []
    else (if sources[0].quantity > 0 then [sources[0]] else []) + Positive(sources[1..])
  }

  /** What is taken, first come first served. */
  function Used(sources: seq<Source>, quantity: int): seq<Source> {
    if sources == [] || quantity <= 0 then []
    else if sources[0].quantity <= 0 then Used(sources[1..], quantity)
    else
      var used := Min(sources[0].quantity, quantity);
      [sources[0].(quantity := used)] + Used(sources[1..], quantity - used)
  }

  /** And what is left. */
  function Rest(sources: seq<Source>, quantity: int): seq<Source> {
    if sources == [] then []
    else if quantity <= 0 then Positive(sources)
    else if sources[0].quantity <= 0 then Rest(sources[1..], quantity)
    else
      var used := Min(sources[0].quantity, quantity);
      (if sources[0].quantity > used then [sources[0].(quantity := sources[0].quantity - used)] else [])
      + Rest(sources[1..], quantity - used)
  }

  function Consumed(sources: seq<Source>, quantity: int): seq<Source> {
    AppendAll([], Used(sources, quantity))
  }

  lemma {:induction false} PositiveConcat(a: seq<Source>, b: seq<Source>)
    ensures Positive(a + b) == Positive(a) + Positive(b)
  {
    if a == [] {
      assert a + b == b;
    } else {
      assert (a + b)[1..] == a[1..] + b;
      PositiveConcat(a[1..], b);
    }
  }

  lemma {:induction false} PositiveIs(sources: seq<Source>)
    ensures AllPositive(Positive(sources))
    ensures AllPositive(sources) ==> Positive(sources) == sources
  {
    if sources != [] {
      PositiveIs(sources[1..]);
    }
  }

  lemma RestUntouched(sources: seq<Source>, quantity: int)
    requires quantity <= 0
    ensures Rest(sources, quantity) == Positive(sources) && Used(sources, quantity) == []
  {
  }

  /** One turn of the consuming loop, seen from the current source on. */
  lemma ConsumeTurn(head: Source, tail: seq<Source>, remaining: int, consumed: seq<Source>)
    requires remaining > 0 && head.quantity > 0
    ensures var used := Min(head.quantity, remaining);
            var after := [head.(quantity := head.quantity - used)] + tail;
            && AppendAll(consumed, Used([head] + tail, remaining))
               == AppendAll(Append(consumed, head.(quantity := used)), Used(after, remaining - used))
            && Rest([head] + tail, remaining) == Rest(after, remaining - used)
  {
    var used := Min(head.quantity, remaining);
    var left := head.(quantity := head.quantity - used);
    assert ([head] + tail)[1..] == tail && ([left] + tail)[1..] == tail;
    var more := [head.(quantity := used)] + Used(tail, remaining - used);
    assert Used([head] + tail, remaining) == more && more[1..] == Used(tail, remaining - used);
    if head.quantity > remaining {
      RestUntouched(tail, 0);
      RestUntouched([left] + tail, 0);
      assert Positive([left] + tail) == [left] + Positive(tail);
    } else {
      SkipEmpty(left, tail, remaining - used);
    }
  }

  /** A source without quantity is passed over. */
  lemma SkipEmpty(head: Source, tail: seq<Source>, remaining: int)
    requires head.quantity <= 0
    ensures Used([head] + tail, remaining) == Used(tail, remaining) && Rest([head] + tail, remaining) == Rest(tail, remaining)
  {
    assert ([head] + tail)[1..] == tail;
    if remaining <= 0 {
      RestUntouched(tail, remaining);
    }
  }

  /** The loop that consumes in place: it returns what it took, merged, and leaves what it did not take. */
  method ConsumePlanningSources(sources: seq<Source>, quantity: int) returns (consumed: seq<Source>, left: seq<Source>)
    ensures consumed == Consumed(sources, quantity) && left == Rest(sources, quantity)
  {
    var current, remaining, index := sources, quantity, 0;
    consumed := [];
    while remaining > 0 && index < |current|
      invariant 0 <= index <= |current|
      invariant Positive(current[..index]) == []
      invariant AppendAll(consumed, Used(current[index..], remaining)) == Consumed(sources, quantity)
      invariant Rest(current[index..], remaining) == Rest(sources, quantity)
      decreases |current| - index, remaining
    {
      var head, tail := current[index], current[index + 1..];
      assert current[index..] == [head] + tail;
      if head.quantity <= 0 {
        SkipEmpty(head, tail, remaining);
        PassOver(current, index);
        index := index + 1;
        continue;
      }
      var used := Min(head.quantity, remaining);
      ConsumeTurn(head, tail, remaining, consumed);
      consumed := AppendPlanningSource(consumed, head.(quantity := used));
      var before := current;
      current := current[index := head.(quantity := head.quantity - used)];
      assert current[..index] == before[..index];
      assert current[index..] == [current[index]] + tail;
      remaining := remaining - used;
      if current[index].quantity <= 0 {
        SkipEmpty(current[index], tail, remaining);
        PassOver(current, index);
        index := index + 1;
      }
    }
    left := Filtered(current);
    Left(current, index, remaining);
  }

  /** When the loop ends, what is left is the rest from the current source on. */
  lemma Left(current: seq<Source>, index: nat, remaining: int)
    requires index <= |current| && Positive(current[..index]) == [] && (remaining <= 0 || index == |current|)
    ensures Positive(current) == Rest(current[index..], remaining)
    ensures Used(current[index..], remaining) == []
  {
    assert current == current[..index] + current[index..];
    PositiveConcat(current[..index], current[index..]);
    if remaining <= 0 {
      RestUntouched(current[index..], remaining);
    }
  }

  lemma PassOver(current: seq<Source>, index: nat)
    requires index < |current| && current[index].quantity <= 0 && Positive(current[..index]) == []
    ensures Positive(current[..index + 1]) == []
  {
    assert current[..index + 1] == current[..index] + [current[index]];
    PositiveConcat(current[..index], [current[index]]);
    assert [current[index]][1..] == [];
  }

  method Filtered(sources: seq<Source>) returns (r: seq<Source>)
    ensures r == Positive(sources)
  {
    r := [];
    for i := 0 to |sources|
      invariant r == Positive(sources[..i])
    {
      assert sources[..i + 1] == sources[..i] + [sources[i]];
      PositiveConcat(sources[..i], [sources[i]]);
      assert [sources[i]][1..] == [];
      if sources[i].quantity > 0 {
        r := r + [sources[i]];
      }
    }
    assert sources[..|sources|] == sources;
  }

  // ---------- what consuming means ----------

  /** Nothing is lost or made: for any choice of tags, what is taken and what is left make up what was there. */
  lemma {:induction false} ConsumeConserves(chosen: Tag -> bool, sources: seq<Source>, quantity: int)
    ensures Amount(chosen, Used(sources, quantity)) + Amount(chosen, Rest(sources, quantity)) == Amount(chosen, Positive(sources))
  {
    if sources != [] && quantity > 0 {
      var head, tail := sources[0], sources[1..];
      assert [] + Positive(tail) == Positive(tail);
      if head.quantity <= 0 {
        ConsumeConserves(chosen, tail, quantity);
      } else {
        var used := Min(head.quantity, quantity);
        ConsumeConserves(chosen, tail, quantity - used);
        AmountFirst(chosen, head, Positive(tail));
        AmountFirst(chosen, head.(quantity := used), Used(tail, quantity - used));
        AmountFirst(chosen, head.(quantity := head.quantity - used), Rest(tail, quantity - used));
        assert [] + Rest(tail, quantity - used) == Rest(tail, quantity - used);
      }
    }
  }

  lemma AmountFirst(chosen: Tag -> bool, head: Source, tail: seq<Source>)
    ensures Amount(chosen, [head] + tail) == (if chosen(head.tag) then head.quantity else 0) + Amount(chosen, tail)
  {
    assert ([head] + tail)[1..] == tail;
  }

  lemma {:induction false} ConsumeKeepsPositive(sources: seq<Source>, quantity: int)
    ensures AllPositive(Used(sources, quantity)) && AllPositive(Rest(sources, quantity))
  {
    PositiveIs(sources);
    if sources != [] && quantity > 0 {
      ConsumeKeepsPositive(sources[1..], if sources[0].quantity <= 0 then quantity else quantity - Min(sources[0].quantity, quantity));
    }
  }

  /** No more is taken than was wanted, and less only if nothing is left. */
  lemma {:induction false} ConsumeTakes(sources: seq<Source>, quantity: int)
    ensures var taken := Amount(Any, Used(sources, quantity));
            && 0 <= taken <= (if quantity > 0 then quantity else 0)
            && (taken < quantity ==> Rest(sources, quantity) == [])
  {
    if sources != [] && quantity > 0 {
      var head, tail := sources[0], sources[1..];
      if head.quantity <= 0 {
        ConsumeTakes(tail, quantity);
      } else {
        var used := Min(head.quantity, quantity);
        ConsumeTakes(tail, quantity - used);
        AmountFirst(Any, head.(quantity := used), Used(tail, quantity - used));
      }
    }
  }

  lemma {:induction false} ConsumeKeepsTags(allowed: Tag -> bool, sources: seq<Source>, quantity: int)
    requires Only(allowed, sources)
    ensures Only(allowed, Used(sources, quantity)) && Only(allowed, Rest(sources, quantity))
  {
    if sources != [] {
      PositiveKeepsTags(allowed, sources);
      ConsumeKeepsTags(allowed, sources[1..], quantity);
      if quantity > 0 && sources[0].quantity > 0 {
        ConsumeKeepsTags(allowed, sources[1..], quantity - Min(sources[0].quantity, quantity));
      }
    }
  }

  lemma {:induction false} PositiveKeepsTags(allowed: Tag -> bool, sources: seq<Source>)
    requires Only(allowed, sources)
    ensures Only(allowed, Positive(sources))
  {
    if sources != [] {
      PositiveKeepsTags(allowed, sources[1..]);
    }
  }

  /** The merged list that is returned has the same quantities. */
  lemma ConsumedAmount(chosen: Tag -> bool, sources: seq<Source>, quantity: int)
    ensures Amount(chosen, Consumed(sources, quantity)) == Amount(chosen, Used(sources, quantity))
    ensures AllPositive(Consumed(sources, quantity))
  {
    ConsumeKeepsPositive(sources, quantity);
    PositiveIs(Used(sources, quantity));
    AppendedAmount(chosen, [], Used(sources, quantity));
    AppendedKeeps(Any, [], Used(sources, quantity));
  }

  lemma ConsumedTags(allowed: Tag -> bool, sources: seq<Source>, quantity: int)
    requires Only(allowed, sources)
    ensures Only(allowed, Consumed(sources, quantity)) && Only(allowed, Rest(sources, quantity))
  {
    ConsumeKeepsTags(allowed, sources, quantity);
    AppendedKeeps(allowed, [], Used(sources, quantity));
  }

  /** Both halves together: what was taken, as it is returned, and what is left. */
  lemma ConsumedConserves(chosen: Tag -> bool, sources: seq<Source>, quantity: int)
    ensures Amount(chosen, Consumed(sources, quantity)) + Amount(chosen, Rest(sources, quantity))
            == Amount(chosen, Positive(sources))
    ensures AllPositive(Consumed(sources, quantity)) && AllPositive(Rest(sources, quantity))
  {
    ConsumedAmount(chosen, sources, quantity);
    ConsumeConserves(chosen, sources, quantity);
    ConsumeKeepsPositive(sources, quantity);
  }

  /** As much as was wanted, or everything; and nothing of a quantity that is not positive. */
  lemma ConsumedTakes(sources: seq<Source>, quantity: int)
    ensures var taken := Amount(Any, Consumed(sources, quantity));
            && 0 <= taken && (quantity >= 0 ==> taken <= quantity) && (quantity <= 0 ==> taken == 0)
            && (taken < quantity ==> Rest(sources, quantity) == [])
  {
    ConsumedAmount(Any, sources, quantity);
    ConsumeTakes(sources, quantity);
  }

  /** A part of a list of at most one source, or all the sources it has but that part. */
  function PartOf(split: seq<Source>, part: int): seq<Source> {
    if split == [] then [] else [split[0].(quantity := part)]
  }

  function OtherPart(split: seq<Source>, part: int): seq<Source> {
    if split == [] then [] else [split[0].(quantity := split[0].quantity - part)]
  }

  /**
   * First come, first served: what is taken is the first sources and perhaps a part of the next one, and what is
   * left is the other part and all sources after it.
   */
  lemma {:induction false} ConsumedInOrder(sources: seq<Source>, quantity: int)
    returns (taken: seq<Source>, split: seq<Source>, after: seq<Source>, part: int)
    requires AllPositive(sources)
    ensures sources == taken + split + after && |split| <= 1 && (split != [] ==> 0 < part < split[0].quantity)
    ensures Used(sources, quantity) == taken + PartOf(split, part)
    ensures Rest(sources, quantity) == OtherPart(split, part) + after
  {
    if sources == [] || quantity <= 0 {
      NoneUsed(sources, quantity);
      taken, split, after, part := [], [], sources, 0;
    } else {
      var head, tail := sources[0], sources[1..];
      assert sources == [head] + tail;
      if head.quantity > quantity {
        PartUsed(head, tail, quantity);
        taken, split, after, part := [], [head], tail, quantity;
        NothingBefore([head]);
        NothingBefore([head.(quantity := quantity)]);
      } else {
        var t;
        t, split, after, part := ConsumedInOrder(tail, quantity - head.quantity);
        taken := [head] + t;
        FirstUsedUp(head, tail, quantity);
        Four(head, t, split, after);
        Associates([head], t, PartOf(split, part));
      }
    }
  }

  lemma NoneUsed(sources: seq<Source>, quantity: int)
    requires AllPositive(sources) && (sources == [] || quantity <= 0)
    ensures [] + [] + sources == sources && Used(sources, quantity) == [] && Rest(sources, quantity) == [] + sources
  {
    if quantity <= 0 {
      RestUntouched(sources, quantity);
      PositiveIs(sources);
    }
  }

  lemma PartUsed(head: Source, tail: seq<Source>, quantity: int)
    requires AllPositive(tail) && 0 < quantity < head.quantity
    ensures Used([head] + tail, quantity) == [head.(quantity := quantity)]
    ensures Rest([head] + tail, quantity) == [head.(quantity := head.quantity - quantity)] + tail
  {
    Heads([head], tail);
    NothingBefore(tail);
    assert [head][1..] == [];
    RestUntouched(tail, 0);
    PositiveIs(tail);
  }

  lemma Four(head: Source, taken: seq<Source>, split: seq<Source>, after: seq<Source>)
    ensures [head] + taken + split + after == [head] + (taken + split + after)
  {
    Associates([head], taken, split);
    Associates([head], taken + split, after);
  }

  lemma FirstUsedUp(head: Source, tail: seq<Source>, quantity: int)
    requires 0 < head.quantity <= quantity
    ensures Used([head] + tail, quantity) == [head] + Used(tail, quantity - head.quantity)
    ensures Rest([head] + tail, quantity) == Rest(tail, quantity - head.quantity)
  {
    Heads([head], tail);
    NothingBefore(tail);
    assert [head][1..] == [];
    NothingBefore(Rest(tail, quantity - head.quantity));
  }
}
