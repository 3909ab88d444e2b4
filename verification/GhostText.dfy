/**
Frequency-ranked completion over a sorted table: a scan of the block of keys that starts at
the lower bound of the prefix.
*/
module GhostText {
  import opened Text

  datatype Entry = Entry(key: string, count: int)

  // Extensions of a prefix are not below it...
  lemma {:induction false} ExtensionsNotBelow(p: string, k: string)
    requires p <= k
    ensures !Less(k, p)
  {
    if p != "" {
      ExtensionsNotBelow(p[1..], k[1..]);
    }
  }

  // ...and nothing else lies between them and it.
  lemma {:induction false} ExtensionsContiguous(p: string, a: string, b: string)
    requires !Less(a, p) && Less(a, b) && p <= b
    ensures p <= a
  {
    if p != "" {
      assert a != "" && a[0] == p[0];
      ExtensionsContiguous(p[1..], a[1..], b[1..]);
    }
  }

  // The invariant of a flat_map: keys strictly increasing.
  predicate Sorted(table: seq<Entry>) {
    forall i, j :: 0 <= i < j < |table| ==> Less(table[i].key, table[j].key)
  }

  // ---- The specification: over all keys, in no particular order ----

  predicate Completes(prefix: string, e: Entry) {
    prefix <= e.key && e.key != prefix && e.count > 0
  }

  // The most frequent completion, the least key among equals.
  ghost predicate IsBest(table: seq<Entry>, prefix: string, e: Entry) {
    && e in table && Completes(prefix, e)
    && forall f :: f in table && Completes(prefix, f) ==>
         f.count < e.count || (f.count == e.count && (f.key == e.key || Less(e.key, f.key)))
  }

  // ---- The class ----

  class GhostTextEngine {
    var freq: seq<Entry>

    ghost predicate Valid()
      reads this
    {
      Sorted(freq)
    }

    constructor ()
      ensures Valid() && freq == []
    {
      freq := [];
    }

    // Binary search for the first key that is not below the prefix.
    method LowerBound(prefix: string) returns (k: nat)
      requires Valid()
      ensures k <= |freq|
      ensures forall i :: 0 <= i < k ==> Less(freq[i].key, prefix)
      ensures forall i :: k <= i < |freq| ==> !Less(freq[i].key, prefix)
    {
      var lo, hi := 0, |freq|;
      while lo < hi
        invariant 0 <= lo <= hi <= |freq|
        invariant forall i :: 0 <= i < lo ==> Less(freq[i].key, prefix)
        invariant forall i :: hi <= i < |freq| ==> !Less(freq[i].key, prefix)
      {
        var mid := (lo + hi) / 2;
        if Less(freq[mid].key, prefix) {
          forall i | lo <= i < mid
            ensures Less(freq[i].key, prefix)
          {
            LessTransitive(freq[i].key, freq[mid].key, prefix);
          }
          lo := mid + 1;
        } else {
          forall i | mid < i < hi
            ensures !Less(freq[i].key, prefix)
          {
            if Less(freq[i].key, prefix) {
              LessTransitive(freq[mid].key, freq[i].key, prefix);
            }
          }
          hi := mid;
        }
      }
      k := lo;
    }

    // suggest(): the scan agrees with the search over all keys.
    method Suggest(prefix: string) returns (best: Option<string>)
      requires Valid()
      ensures prefix == "" ==> best == None
      ensures prefix != "" ==>
        (best.None? <==> forall e :: e in freq ==> !Completes(prefix, e))
      ensures prefix != "" && best.Some? ==>
        exists e: Entry :: e.key == best.value && IsBest(freq, prefix, e)
    {
      if prefix == "" {
        return None;
      }
      var first := LowerBound(prefix);
      var it, found, bestAt, bestFreq := first, false, 0, 0;
      var inside := true;
      while inside && it < |freq|
        invariant first <= it <= |freq|
        invariant inside ==> forall i :: first <= i < it ==> prefix <= freq[i].key
        invariant !inside ==> it < |freq| && !(prefix <= freq[it].key)
        invariant found == (bestFreq > 0) && bestFreq >= 0
        invariant found ==> first <= bestAt < it && Completes(prefix, freq[bestAt]) && freq[bestAt].count == bestFreq
        invariant forall i :: first <= i < it && Completes(prefix, freq[i]) ==>
          freq[i].count < bestFreq || (freq[i].count == bestFreq && bestAt <= i)
        decreases inside, |freq| - it
      {
        var e := freq[it];
        if !(prefix <= e.key) {
          inside := false;
        } else if e.key == prefix {
          it := it + 1;
        } else {
          if e.count > bestFreq {
            found, bestAt, bestFreq := true, it, e.count;
          }
          it := it + 1;
        }
      }
      OutsideNothingCompletes(freq, prefix, first, it);
      if found {
        best := Some(freq[bestAt].key);
        BestIsBest(freq, prefix, bestAt);
      } else {
        best := None;
        forall e | e in freq
          ensures !Completes(prefix, e)
        {
          var i :| 0 <= i < |freq| && freq[i] == e;
        }
      }
    }

    // record(): counts a text, keeping the table sorted.
    method Record(text: string)
      requires Valid()
      modifies this
      ensures Valid()
      ensures text == "" ==> freq == old(freq)
      ensures text != "" ==>
        CountIn(freq, text) == CountIn(old(freq), text) + 1 &&
        forall k :: k != text ==> CountIn(freq, k) == CountIn(old(freq), k) &&
                                  (InTable(freq, k) <==> InTable(old(freq), k))
    {
      if text == "" {
        return;
      }
      var k := LowerBound(text);
      ghost var was := freq;
      if k < |freq| && freq[k].key == text {
        freq := freq[k := Entry(text, freq[k].count + 1)];
        Bumped(was, freq, k, text);
      } else {
        freq := freq[..k] + [Entry(text, 1)] + freq[k..];
        InsertedSorted(was, k, text);
        InsertedCounts(was, freq, k, text);
      }
    }
  }

  // Outside the scanned block no key completes the prefix.
  lemma OutsideNothingCompletes(table: seq<Entry>, prefix: string, first: nat, it: nat)
    requires Sorted(table) && first <= it <= |table|
    requires forall i :: 0 <= i < first ==> Less(table[i].key, prefix)
    requires forall i :: first <= i < |table| ==> !Less(table[i].key, prefix)
    requires it < |table| ==> !(prefix <= table[it].key)
    ensures forall i :: 0 <= i < first || it <= i < |table| ==> !Completes(prefix, table[i])
  {
    forall i | 0 <= i < first || it <= i < |table|
      ensures !Completes(prefix, table[i])
    {
      if prefix <= table[i].key {
        ExtensionsNotBelow(prefix, table[i].key);
        if it < i {
          ExtensionsContiguous(prefix, table[it].key, table[i].key);
        }
        assert false;
      }
    }
  }

  lemma BestIsBest(table: seq<Entry>, prefix: string, b: nat)
    requires Sorted(table) && b < |table| && Completes(prefix, table[b])
    requires forall i :: 0 <= i < |table| && Completes(prefix, table[i]) ==>
      table[i].count < table[b].count || (table[i].count == table[b].count && b <= i)
    ensures IsBest(table, prefix, table[b])
  {
    forall f | f in table && Completes(prefix, f)
      ensures f.count < table[b].count ||
              (f.count == table[b].count && (f.key == table[b].key || Less(table[b].key, f.key)))
    {
      var i :| 0 <= i < |table| && table[i] == f;
    }
  }

  // The answer is determined: no two entries of a sorted table are both best.
  lemma BestIsUnique(table: seq<Entry>, prefix: string, e: Entry, f: Entry)
    requires IsBest(table, prefix, e) && IsBest(table, prefix, f)
    ensures e.key == f.key
  {
    LessTotal(e.key, f.key);
  }

  // ---- Counting ----

  predicate InTable(table: seq<Entry>, key: string) {
    exists i :: 0 <= i < |table| && table[i].key == key
  }

  // The count a table holds for a key, 0 when it holds none.
  function CountIn(table: seq<Entry>, key: string): int {
    if table == [] then 0
    else if table[0].key == key then table[0].count
    else CountIn(table[1..], key)
  }

  lemma {:induction false} CountAt(table: seq<Entry>, i: nat)
    requires Sorted(table) && i < |table|
    ensures CountIn(table, table[i].key) == table[i].count
    decreases |table|
  {
    if i > 0 {
      LessTotal(table[0].key, table[i].key);
      CountAt(table[1..], i - 1);
    }
  }

  lemma {:induction false} CountAbsent(table: seq<Entry>, key: string)
    requires !InTable(table, key)
    ensures CountIn(table, key) == 0
    decreases |table|
  {
    if table != [] {
      assert table[0].key != key;
      assert forall i :: 0 <= i < |table| - 1 ==> table[1..][i] == table[i + 1];
      CountAbsent(table[1..], key);
    }
  }

  // A table that agrees on a key's entry agrees on its count.
  lemma SameCount(a: seq<Entry>, b: seq<Entry>, key: string)
    requires Sorted(a) && Sorted(b)
    requires forall e: Entry :: e.key == key ==> (e in a <==> e in b)
    ensures CountIn(a, key) == CountIn(b, key) && (InTable(a, key) <==> InTable(b, key))
  {
    if InTable(a, key) {
      var i :| 0 <= i < |a| && a[i].key == key;
      assert a[i] in b;
      var j :| 0 <= j < |b| && b[j] == a[i];
      CountAt(a, i);
      CountAt(b, j);
    } else {
      assert forall j :: 0 <= j < |b| ==> b[j] in b;
      CountAbsent(a, key);
      CountAbsent(b, key);
    }
  }

  lemma Bumped(was: seq<Entry>, now: seq<Entry>, k: nat, text: string)
    requires Sorted(was) && k < |was| && was[k].key == text
    requires now == was[k := Entry(text, was[k].count + 1)]
    ensures Sorted(now) && CountIn(now, text) == CountIn(was, text) + 1
    ensures forall key :: key != text ==>
      CountIn(now, key) == CountIn(was, key) && (InTable(now, key) <==> InTable(was, key))
  {
    CountAt(was, k);
    CountAt(now, k);
    forall key | key != text
      ensures CountIn(now, key) == CountIn(was, key) && (InTable(now, key) <==> InTable(was, key))
    {
      forall e: Entry | e.key == key
        ensures e in was <==> e in now
      {
        if i :| 0 <= i < |was| && was[i] == e {
          assert now[i] == e;
        }
        if i :| 0 <= i < |now| && now[i] == e {
          assert was[i] == e;
        }
      }
      SameCount(was, now, key);
    }
  }

  lemma InsertedSorted(was: seq<Entry>, k: nat, text: string)
    requires Sorted(was) && k <= |was|
    requires forall i :: 0 <= i < k ==> Less(was[i].key, text)
    requires forall i :: k <= i < |was| ==> !Less(was[i].key, text)
    requires k < |was| ==> was[k].key != text
    ensures Sorted(was[..k] + [Entry(text, 1)] + was[k..])
    ensures !InTable(was, text)
  {
    forall i | k <= i < |was|
      ensures Less(text, was[i].key)
    {
      LessTotal(text, was[k].key);
      if i > k {
        LessTransitive(text, was[k].key, was[i].key);
      }
    }
    LessIrreflexive(text);
  }

  lemma InsertedCounts(was: seq<Entry>, now: seq<Entry>, k: nat, text: string)
    requires Sorted(was) && Sorted(now) && k <= |was| && !InTable(was, text)
    requires now == was[..k] + [Entry(text, 1)] + was[k..]
    ensures CountIn(now, text) == CountIn(was, text) + 1
    ensures forall key :: key != text ==>
      CountIn(now, key) == CountIn(was, key) && (InTable(now, key) <==> InTable(was, key))
  {
    CountAbsent(was, text);
    CountAt(now, k);
    forall key | key != text
      ensures CountIn(now, key) == CountIn(was, key) && (InTable(now, key) <==> InTable(was, key))
    {
      forall e: Entry | e.key == key
        ensures e in was <==> e in now
      {
        InsertedMember(was, k, Entry(text, 1), e);
      }
      SameCount(was, now, key);
    }
  }

  lemma InsertedMember(was: seq<Entry>, k: nat, x: Entry, e: Entry)
    requires k <= |was|
    ensures e in was[..k] + [x] + was[k..] <==> e in was || e == x
  {
    assert was == was[..k] + was[k..];
  }

  // ---- Over a whole history ----

  // The table counts every text of the history, the empty one excepted, and nothing else.
  ghost predicate Tells(table: seq<Entry>, history: seq<string>) {
    && Sorted(table)
    && forall k :: CountIn(table, k) == (if k == "" then 0 else multiset(history)[k]) &&
                   (InTable(table, k) <==> k != "" && k in history)
  }

  // An engine that recorded a history, text by text.
  method Learn(history: seq<string>) returns (engine: GhostTextEngine)
    ensures fresh(engine) && engine.Valid() && Tells(engine.freq, history)
  {
    engine := new GhostTextEngine();
    for n := 0 to |history|
      invariant fresh(engine) && Tells(engine.freq, history[..n])
    {
      ghost var was := engine.freq;
      engine.Record(history[n]);
      OneMoreTold(was, engine.freq, history[..n], history[n]);
      assert history[..n + 1] == history[..n] + [history[n]];
    }
    assert history[..|history|] == history;
  }

  lemma OneMoreTold(was: seq<Entry>, now: seq<Entry>, history: seq<string>, text: string)
    requires Tells(was, history) && Sorted(now)
    requires text == "" ==> now == was
    requires text != "" ==> CountIn(now, text) == CountIn(was, text) + 1
    requires text != "" ==> forall k :: k != text ==>
               CountIn(now, k) == CountIn(was, k) && (InTable(now, k) <==> InTable(was, k))
    ensures Tells(now, history + [text])
  {
    if text != "" {
      if !InTable(now, text) {
        CountAbsent(now, text);
      }
      assert InTable(now, text);
    }
  }

  // What is suggested is the proper extension of the prefix recorded most often, the least one
  // among equals; there is none if and only if no text recorded properly extends the prefix.
  lemma SuggestionOfHistory(table: seq<Entry>, history: seq<string>, prefix: string)
    requires Tells(table, history) && prefix != ""
    ensures (forall e :: e in table ==> !Completes(prefix, e)) <==> (forall t :: t in history ==> !(prefix < t))
    ensures forall e :: IsBest(table, prefix, e) ==>
              && e.key in history && prefix < e.key
              && forall t :: t in history && prefix < t ==>
                   multiset(history)[t] < multiset(history)[e.key] ||
                   (multiset(history)[t] == multiset(history)[e.key] && (t == e.key || Less(e.key, t)))
  {
    forall t | t in history && prefix < t
      ensures exists e :: e in table && Completes(prefix, e) && e.key == t && e.count == multiset(history)[t]
    {
      var i := TableEntry(table, history, t);
      assert table[i] in table && Completes(prefix, table[i]);
    }
    forall e | e in table && Completes(prefix, e)
      ensures e.key in history && prefix < e.key && e.count == multiset(history)[e.key]
    {
      var i :| 0 <= i < |table| && table[i] == e;
      CountAt(table, i);
      assert InTable(table, e.key);
    }
  }

  lemma TableEntry(table: seq<Entry>, history: seq<string>, t: string) returns (i: nat)
    requires Tells(table, history) && t != "" && t in history
    ensures i < |table| && table[i].key == t && table[i].count == multiset(history)[t] > 0
  {
    assert InTable(table, t);
    i :| i < |table| && table[i].key == t;
    CountAt(table, i);
  }
}
