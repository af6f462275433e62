/** A bounded memory of keys, as the SLA tracker and the CDR metrics keep it: a set to look up and a
    queue to forget the oldest. */
module Dedupe {

  datatype Memory<Key> = Memory(seen: set<Key>, order: seq<Key>)

  function Empty<Key(==)>(): Memory<Key>
  {
    Memory({}, [])
  }

  /** Add a key and forget the oldest one if there are more than `max`. */
  function Remember<Key(==)>(m: Memory<Key>, key: Key, max: nat): Memory<Key>
  {
    var seen, order := m.seen + {key}, m.order + [key];
    if |order| > max then Memory(seen - {order[0]}, order[1..]) else Memory(seen, order)
  }

  function Suffix<Key>(log: seq<Key>, max: nat): seq<Key>
  {
    if |log| <= max then log else log[|log| - max..]
  }

  /** No key comes again before `max` others came. */
  ghost predicate Spaced<Key>(log: seq<Key>, max: nat)
  {
    forall i, j :: 0 <= i < j < |log| && log[i] == log[j] ==> j - i > max
  }

  /** The memory holds exactly the last `max` keys of the log. */
  ghost predicate Remembers<Key(!new)>(m: Memory<Key>, log: seq<Key>, max: nat)
  {
    && m.order == Suffix(log, max)
    && (forall k :: k in m.seen <==> k in m.order)
    && Spaced(log, max)
  }

  lemma RememberExtends<Key(!new)>(m: Memory<Key>, log: seq<Key>, key: Key, max: nat)
    requires max > 0 && Remembers(m, log, max) && key !in m.seen
    ensures Remembers(Remember(m, key, max), log + [key], max)
  {
    var after, more := Remember(m, key, max), log + [key];
    var start := |log| - |m.order|;
    forall i | start <= i < |log| ensures log[i] != key {
      assert m.order[i - start] in m.order;
    }
    assert after.order == Suffix(more, max);
    forall k ensures k in after.seen <==> k in after.order {
      if |m.order| + 1 > max {
        assert m.order == [m.order[0]] + m.order[1..];
        assert after.order == m.order[1..] + [key];
        OldestIsUnique(m.order, log, max);
      }
    }
  }

  lemma OldestIsUnique<Key>(order: seq<Key>, log: seq<Key>, max: nat)
    requires order == Suffix(log, max) && order != [] && Spaced(log, max)
    ensures order[0] !in order[1..]
  {
    var shift := |log| - |order|;
    forall j | 1 <= j < |order| ensures order[j] != order[0] {
      assert log[shift + j] == order[j] && log[shift] == order[0];
    }
  }

  /** The same keys offered to a memory that never forgets: the first of each. */
  function Firsts<Key(==)>(keys: seq<Key>): seq<Key>
  {
    if keys == [] then [] else
    var front, last := Firsts(keys[..|keys| - 1]), keys[|keys| - 1];
    if last in front then front else front + [last]
  }

  /** What a bounded memory lets through of a sequence of keys, and the memory afterwards. */
  function Passed<Key(==)>(keys: seq<Key>, max: nat): (seq<Key>, Memory<Key>)
  {
    if keys == [] then ([], Empty()) else
    var (log, m) := Passed(keys[..|keys| - 1], max);
    var last := keys[|keys| - 1];
    if last in m.seen then (log, m) else (log + [last], Remember(m, last, max))
  }

  lemma {:induction false} PassedIsRemembered<Key(!new)>(keys: seq<Key>, max: nat)
    requires max > 0
    ensures Remembers(Passed(keys, max).1, Passed(keys, max).0, max)
  {
    if keys != [] {
      PassedIsRemembered(keys[..|keys| - 1], max);
      var (log, m) := Passed(keys[..|keys| - 1], max);
      if keys[|keys| - 1] !in m.seen {
        RememberExtends(m, log, keys[|keys| - 1], max);
      }
    }
  }

  /** As long as no more than `max` different keys come, forgetting makes no difference. */
  lemma {:induction false} BoundedRefinesUnbounded<Key(!new)>(keys: seq<Key>, max: nat)
    requires max > 0 && |Firsts(keys)| <= max
    ensures Passed(keys, max).0 == Firsts(keys)
  {
    if keys != [] {
      var front := keys[..|keys| - 1];
      BoundedRefinesUnbounded(front, max);
      PassedIsRemembered(front, max);
    }
  }

  /** A key passes again only after `max` other keys passed in between. */
  lemma PassesAgainOnlyAfterManyOthers<Key(!new)>(keys: seq<Key>, max: nat, i: nat, j: nat)
    requires max > 0 && i < j < |Passed(keys, max).0| && Passed(keys, max).0[i] == Passed(keys, max).0[j]
    ensures j - i - 1 >= max
  {
    PassedIsRemembered(keys, max);
  }
}
