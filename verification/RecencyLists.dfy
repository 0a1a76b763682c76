/** Most-recently-used lists over any key. */
module RecencyLists {
  import opened Seqs

  function Dropping<T>(key: T -> string, entries: seq<T>, k: string): seq<T> {
    if entries == [] then []
    else (if key(entries[0]) == k then [] else [entries[0]]) + Dropping(key, entries[1..], k)
  }

  function Truncate<T>(entries: seq<T>, n: nat): seq<T> {
    if |entries| <= n then entries else entries[..n]
  }

  function Remembered<T>(key: T -> string, limit: nat, entries: seq<T>, result: T): seq<T> {
    Truncate([result] + Dropping(key, entries, key(result)), limit)
  }

  /** Position i of the history is the last selection of its entity. */
  predicate IsLatest<T>(key: T -> string, history: seq<T>, i: nat)
    requires i < |history|
  {
    forall j :: i < j < |history| ==> key(history[j]) != key(history[i])
  }

  /** The latest selection of each entity among positions from n on, newest first. */
  function LatestFirst<T>(key: T -> string, history: seq<T>, n: nat): seq<T>
    requires n <= |history|
    decreases |history| - n
  {
    if n == |history| then []
    else LatestFirst(key, history, n + 1) + if IsLatest(key, history, n) then [history[n]] else []
  }

  predicate UniqueKeys<T>(key: T -> string, entries: seq<T>) {
    forall i, j :: 0 <= i < j < |entries| ==> key(entries[i]) != key(entries[j])
  }

  lemma {:induction false} DroppingConcat<T>(key: T -> string, a: seq<T>, b: seq<T>, k: string)
    ensures Dropping(key, a + b, k) == Dropping(key, a, k) + Dropping(key, b, k)
  {
    if a == [] {
      NothingBefore(b);
      NothingBefore(Dropping(key, b, k));
    } else {
      Heads(a, b);
      DroppingConcat(key, a[1..], b, k);
      Associates(if key(a[0]) == k then [] else [a[0]], Dropping(key, a[1..], k), Dropping(key, b, k));
    }
  }

  lemma {:induction false} DroppingNone<T>(key: T -> string, entries: seq<T>, k: string)
    requires forall i :: 0 <= i < |entries| ==> key(entries[i]) != k
    ensures Dropping(key, entries, k) == entries
  {
    if entries != [] {
      DroppingNone(key, entries[1..], k);
    }
  }

  /** Dropping from a list of distinct entities shortens it by one at most. */
  lemma {:induction false} DroppingFewer<T>(key: T -> string, entries: seq<T>, k: string)
    requires UniqueKeys(key, entries)
    ensures |Dropping(key, entries, k)| >= |entries| - 1
  {
    if entries != [] {
      if key(entries[0]) == k {
        DroppingNone(key, entries[1..], k);
      } else {
        DroppingFewer(key, entries[1..], k);
      }
    }
  }

  /** Truncating before dropping and prepending loses nothing within the limit. */
  lemma TruncatedStep<T>(key: T -> string, limit: nat, all: seq<T>, result: T)
    requires UniqueKeys(key, all) && limit > 0
    ensures Remembered(key, limit, Truncate(all, limit), result) == Remembered(key, limit, all, result)
  {
    if |all| > limit {
      var kept, lost := all[..limit], all[limit..];
      assert all == kept + lost;
      DroppingConcat(key, kept, lost, key(result));
      DroppingFewer(key, kept, key(result));
    }
  }

  /** A new selection comes first, and earlier selections of its entity no longer count. */
  lemma {:induction false} LatestFirstAppend<T>(key: T -> string, history: seq<T>, result: T, n: nat)
    requires n <= |history|
    ensures LatestFirst(key, history + [result], n) == [result] + Dropping(key, LatestFirst(key, history, n), key(result))
    decreases |history| - n
  {
    var longer := history + [result];
    if n == |history| {
      assert IsLatest(key, longer, n);
      assert LatestFirst(key, longer, n + 1) == [];
    } else {
      var later, own := LatestFirst(key, history, n + 1), if IsLatest(key, history, n) then [history[n]] else [];
      LatestFirstAppend(key, history, result, n + 1);
      LatestAppend(key, history, result, n);
      DroppingConcat(key, later, own, key(result));
      DroppingOwn(key, history, n, result);
      Associates([result], Dropping(key, later, key(result)), Dropping(key, own, key(result)));
    }
  }

  lemma DroppingOwn<T>(key: T -> string, history: seq<T>, n: nat, result: T)
    requires n < |history|
    ensures Dropping(key, if IsLatest(key, history, n) then [history[n]] else [], key(result))
            == if IsLatest(key, history, n) && key(history[n]) != key(result) then [history[n]] else []
  {
    assert [history[n]][1..] == [];
  }

  lemma LatestAppend<T>(key: T -> string, history: seq<T>, result: T, n: nat)
    requires n < |history|
    ensures IsLatest(key, history + [result], n) <==> IsLatest(key, history, n) && key(history[n]) != key(result)
  {
    var longer := history + [result];
    assert longer[|history|] == result;
    if IsLatest(key, longer, n) {
      forall j | n < j < |history| ensures key(history[j]) != key(history[n]) {
        assert longer[j] == history[j];
      }
    }
  }

  lemma {:induction false} LatestFirstFrom<T>(key: T -> string, history: seq<T>, n: nat, m: nat)
    requires n <= |history| && m < |LatestFirst(key, history, n)|
    ensures exists i :: n <= i < |history| && history[i] == LatestFirst(key, history, n)[m]
    decreases |history| - n
  {
    var below := LatestFirst(key, history, n + 1);
    if m < |below| {
      LatestFirstFrom(key, history, n + 1, m);
    } else {
      assert history[n] == LatestFirst(key, history, n)[m];
    }
  }

  lemma {:induction false} LatestFirstUnique<T>(key: T -> string, history: seq<T>, n: nat)
    requires n <= |history|
    ensures UniqueKeys(key, LatestFirst(key, history, n))
    decreases |history| - n
  {
    if n < |history| {
      LatestFirstUnique(key, history, n + 1);
      var below := LatestFirst(key, history, n + 1);
      if IsLatest(key, history, n) {
        forall m | 0 <= m < |below| ensures key(below[m]) != key(history[n]) {
          LatestFirstFrom(key, history, n + 1, m);
          var i :| n + 1 <= i < |history| && history[i] == below[m];
        }
      }
    }
  }

  /** If the list is the truncation of the latest ones, it stays so. */
  lemma RememberedLatest<T>(key: T -> string, limit: nat, history: seq<T>, result: T)
    requires limit > 0
    ensures Remembered(key, limit, Truncate(LatestFirst(key, history, 0), limit), result)
            == Truncate(LatestFirst(key, history + [result], 0), limit)
  {
    LatestFirstUnique(key, history, 0);
    TruncatedStep(key, limit, LatestFirst(key, history, 0), result);
    LatestFirstAppend(key, history, result, 0);
  }

  // ---------- lists that agree in their keys ----------

  predicate SameKeys<T>(key: T -> string, a: seq<T>, b: seq<T>) {
    |a| == |b| && forall i :: 0 <= i < |a| ==> key(a[i]) == key(b[i])
  }

  lemma {:induction false} DroppingSameKeys<T>(key: T -> string, a: seq<T>, b: seq<T>, k: string)
    requires SameKeys(key, a, b)
    ensures SameKeys(key, Dropping(key, a, k), Dropping(key, b, k))
  {
    if a != [] {
      DroppingSameKeys(key, a[1..], b[1..], k);
    }
  }

  /** A selection depends on the keys of the list only. */
  lemma RememberedSameKeys<T>(key: T -> string, limit: nat, a: seq<T>, b: seq<T>, result: T)
    requires SameKeys(key, a, b)
    ensures SameKeys(key, Remembered(key, limit, a, result), Remembered(key, limit, b, result))
  {
    DroppingSameKeys(key, a, b, key(result));
  }

  /** The list after more selections. */
  function Continued<T>(key: T -> string, limit: nat, entries: seq<T>, history: seq<T>): seq<T> {
    if history == [] then entries
    else Remembered(key, limit, Continued(key, limit, entries, history[..|history| - 1]), history[|history| - 1])
  }

  lemma {:induction false} ContinuedSameKeys<T>(key: T -> string, limit: nat, a: seq<T>, b: seq<T>, history: seq<T>)
    requires SameKeys(key, a, b)
    ensures SameKeys(key, Continued(key, limit, a, history), Continued(key, limit, b, history))
  {
    if history != [] {
      var front := history[..|history| - 1];
      ContinuedSameKeys(key, limit, a, b, front);
      RememberedSameKeys(key, limit, Continued(key, limit, a, front), Continued(key, limit, b, front), history[|history| - 1]);
    }
  }

  lemma {:induction false} SelectedContinued<T>(key: T -> string, limit: nat, first: seq<T>, second: seq<T>)
    ensures Continued(key, limit, Selected(key, limit, first), second) == Selected(key, limit, first + second)
  {
    if second == [] {
      assert first + second == first;
    } else {
      SelectedContinued(key, limit, first, second[..|second| - 1]);
      assert (first + second)[..|first + second| - 1] == first + second[..|second| - 1];
    }
  }

  /** The list after a history of selections, starting from an empty one. */
  function Selected<T>(key: T -> string, limit: nat, history: seq<T>): seq<T> {
    if history == [] then []
    else Remembered(key, limit, Selected(key, limit, history[..|history| - 1]), history[|history| - 1])
  }

  lemma {:induction false} SelectedIsLatest<T>(key: T -> string, limit: nat, history: seq<T>)
    requires limit > 0
    ensures Selected(key, limit, history) == Truncate(LatestFirst(key, history, 0), limit)
    ensures UniqueKeys(key, Selected(key, limit, history)) && |Selected(key, limit, history)| <= limit
  {
    LatestFirstUnique(key, history, 0);
    if history != [] {
      var init, result := history[..|history| - 1], history[|history| - 1];
      SelectedIsLatest(key, limit, init);
      RememberedLatest(key, limit, init, result);
      assert init + [result] == history;
    }
  }
}
