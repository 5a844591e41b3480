/** Filing classified commits under a fixed table of category keys: the loops
    at src/index.ts:153-159 and herald.py:79-95 both append each commit's
    entry to the list of its category, in input order. */
module Aggregation {
  import opened Strings

  /** One classified commit: the key of its section and the line shown there. */
  datatype Entry = Entry(category: string, text: string)

  /** The entry of each message, in input order. */
  function Entries(ms: seq<string>, entryOf: string -> Entry): (es: seq<Entry>)
    ensures |es| == |ms|
    ensures forall i :: 0 <= i < |ms| ==> es[i] == entryOf(ms[i])
  {
    if ms == [] then [] else Entries(ms[..|ms| - 1], entryOf) + [entryOf(ms[|ms| - 1])]
  }

  /** The texts of the entries filed under `key`, in input order. */
  function Bucket(es: seq<Entry>, key: string): (r: seq<string>)
    ensures |r| <= |es|
    ensures forall x :: x in r ==> Entry(key, x) in es
  {
    if es == [] then []
    else
      var r := Bucket(es[..|es| - 1], key) + (if es[|es| - 1].category == key then [es[|es| - 1].text] else []);
      assert forall x :: x in Bucket(es[..|es| - 1], key) ==> Entry(key, x) in es by {
        forall x | x in Bucket(es[..|es| - 1], key) ensures Entry(key, x) in es {
          assert Entry(key, x) in es[..|es| - 1];
        }
      }
      r
  }

  predicate Distinct(keys: seq<string>) {
    forall i, j :: 0 <= i < j < |keys| ==> keys[i] != keys[j]
  }

  /** Every entry has a category that is one of the keys. */
  predicate AllFiled(es: seq<Entry>, keys: seq<string>) {
    forall i :: 0 <= i < |es| ==> es[i].category in keys
  }

  /** Number of entries before the first one whose category is not a key:
      the position a loop filing them in order stops at, or `|es|`. */
  function FiledCount(es: seq<Entry>, keys: seq<string>): (n: nat)
    ensures n <= |es| && AllFiled(es[..n], keys)
    ensures n < |es| ==> es[n].category !in keys
  {
    if es == [] || es[0].category !in keys then 0
    else
      var n := 1 + FiledCount(es[1..], keys);
      forall k | 0 <= k < n ensures es[..n][k].category in keys {
        if k > 0 { assert es[..n][k] == es[1..][..n - 1][k - 1]; }
      }
      n
  }

  /** The loop reaches the end exactly when every entry has a key. */
  lemma FiledCountAll(es: seq<Entry>, keys: seq<string>)
    ensures FiledCount(es, keys) == |es| <==> AllFiled(es, keys)
  {
    if FiledCount(es, keys) == |es| {
      assert es[..|es|] == es;
    }
  }

  /** The position of a key in the table. */
  function KeyIndex(keys: seq<string>, key: string): (j: nat)
    requires key in keys
    ensures j < |keys| && keys[j] == key
    ensures Distinct(keys) ==> forall i :: 0 <= i < |keys| && keys[i] == key ==> i == j
  {
    if keys[0] == key then 0 else 1 + KeyIndex(keys[1..], key)
  }

  /** One more entry adds its text to the bucket of its own category only. */
  lemma BucketSnoc(es: seq<Entry>, e: Entry, key: string)
    ensures Bucket(es + [e], key) == Bucket(es, key) + (if e.category == key then [e.text] else [])
  {
    assert (es + [e])[..|es|] == es;
  }

  /** A non-empty sequence is its initial part followed by its last entry. */
  lemma SplitLast<T>(es: seq<T>)
    requires es != []
    ensures es == es[..|es| - 1] + [es[|es| - 1]]
  {
  }

  /** A loop that files entries in order stops at `i` when the first `i`
      are filed and entry `i` is not. */
  lemma {:induction false} FiledCountAt(es: seq<Entry>, keys: seq<string>, i: nat)
    requires i < |es| && AllFiled(es[..i], keys) && es[i].category !in keys
    ensures FiledCount(es, keys) == i
  {
    if i > 0 {
      assert es[..i][0] == es[0];
      var tail := es[1..][..i - 1];
      forall k | 0 <= k < |tail| ensures tail[k].category in keys {
        assert tail[k] == es[..i][k + 1];
      }
      FiledCountAt(es[1..], keys, i - 1);
    }
  }

  /** A loop that files every entry has filed all of them. */
  lemma AllFiledCount(es: seq<Entry>, keys: seq<string>)
    requires AllFiled(es[..|es|], keys)
    ensures FiledCount(es, keys) == |es|
  {
    assert es[..|es|] == es;
    FiledCountAll(es, keys);
  }

  /** The first entries of a filed sequence are filed. */
  lemma AllFiledPrefix(es: seq<Entry>, keys: seq<string>, n: nat)
    requires n <= |es| && AllFiled(es, keys)
    ensures AllFiled(es[..n], keys)
  {
    var init := es[..n];
    forall k | 0 <= k < |init| ensures init[k].category in keys {
      assert init[k] == es[k];
    }
  }

  /** The lists after appending the text of every entry, in order, to the
      list at the position of its category. */
  function Filed(start: seq<seq<string>>, es: seq<Entry>, keys: seq<string>): (lists: seq<seq<string>>)
    requires |start| == |keys| && AllFiled(es, keys)
    ensures |lists| == |keys|
  {
    if es == [] then start
    else
      var e := es[|es| - 1];
      AllFiledPrefix(es, keys, |es| - 1);
      var lists := Filed(start, es[..|es| - 1], keys);
      var j := KeyIndex(keys, e.category);
      lists[j := lists[j] + [e.text]]
  }

  /** Filing one more entry. */
  lemma FiledSnoc(start: seq<seq<string>>, es: seq<Entry>, keys: seq<string>, i: nat)
    requires |start| == |keys| && i < |es| && AllFiled(es[..i], keys) && es[i].category in keys
    ensures AllFiled(es[..i + 1], keys)
    ensures var j := KeyIndex(keys, es[i].category); var lists := Filed(start, es[..i], keys);
      Filed(start, es[..i + 1], keys) == lists[j := lists[j] + [es[i].text]]
  {
    assert es[..i + 1] == es[..i] + [es[i]];
    assert es[..i + 1][..i] == es[..i];
  }

  /** With distinct keys, filing appends to the list of key `k` exactly the
      bucket of that key. */
  lemma {:induction false} FiledBucket(start: seq<seq<string>>, es: seq<Entry>, keys: seq<string>, k: nat)
    requires |start| == |keys| && Distinct(keys) && AllFiled(es, keys) && k < |keys|
    ensures Filed(start, es, keys)[k] == start[k] + Bucket(es, keys[k])
  {
    if es != [] {
      var i := |es| - 1;
      var e := es[i];
      AllFiledPrefix(es, keys, i);
      FiledBucket(start, es[..i], keys, k);
      SplitLast(es);
      BucketSnoc(es[..i], e, keys[k]);
      if k == KeyIndex(keys, e.category) {
        Regroup(start[k], Bucket(es[..i], keys[k]), [e.text]);
      }
    }
  }

  lemma FiledBuckets(start: seq<seq<string>>, es: seq<Entry>, keys: seq<string>)
    requires |start| == |keys| && Distinct(keys) && AllFiled(es, keys)
    ensures forall k :: 0 <= k < |keys| ==> Filed(start, es, keys)[k] == start[k] + Bucket(es, keys[k])
  {
    forall k | 0 <= k < |keys| ensures Filed(start, es, keys)[k] == start[k] + Bucket(es, keys[k]) {
      FiledBucket(start, es, keys, k);
    }
  }

  /** Number of strings held by all lists together. */
  function TotalLength(lists: seq<seq<string>>): nat {
    if lists == [] then 0 else TotalLength(lists[..|lists| - 1]) + |lists[|lists| - 1]|
  }

  /** The buckets of all keys, in table order. */
  function Buckets(es: seq<Entry>, keys: seq<string>): (r: seq<seq<string>>)
    ensures |r| == |keys|
    ensures forall j :: 0 <= j < |keys| ==> r[j] == Bucket(es, keys[j])
  {
    if keys == [] then [] else Buckets(es, keys[..|keys| - 1]) + [Bucket(es, keys[|keys| - 1])]
  }

  function Occurrences(keys: seq<string>, key: string): nat {
    if keys == [] then 0 else Occurrences(keys[..|keys| - 1], key) + (if keys[|keys| - 1] == key then 1 else 0)
  }

  lemma {:induction false} OccursOnce(keys: seq<string>, key: string)
    requires Distinct(keys)
    ensures Occurrences(keys, key) == (if key in keys then 1 else 0)
  {
    if keys != [] {
      var init := keys[..|keys| - 1];
      assert Distinct(init);
      OccursOnce(init, key);
      assert keys == init + [keys[|keys| - 1]];
      if keys[|keys| - 1] == key {
        assert key !in init;
      }
    }
  }

  lemma {:induction false} BucketsGrow(es: seq<Entry>, e: Entry, keys: seq<string>)
    ensures TotalLength(Buckets(es + [e], keys)) == TotalLength(Buckets(es, keys)) + Occurrences(keys, e.category)
  {
    assert (es + [e])[..|es|] == es;
    if keys != [] {
      var init := keys[..|keys| - 1];
      BucketsGrow(es, e, init);
      assert Buckets(es + [e], keys)[..|init|] == Buckets(es + [e], init);
      assert Buckets(es, keys)[..|init|] == Buckets(es, init);
    }
  }

  /** With distinct keys and every category among them, filing puts every
      entry in exactly one list: the lists hold as many texts as there are
      entries. */
  lemma {:induction false} BucketsPartition(es: seq<Entry>, keys: seq<string>)
    requires Distinct(keys) && AllFiled(es, keys)
    ensures TotalLength(Buckets(es, keys)) == |es|
  {
    if es == [] {
      assert forall j :: 0 <= j < |keys| ==> Buckets(es, keys)[j] == [];
      EmptyListsTotal(Buckets(es, keys));
    } else {
      var init, e := es[..|es| - 1], es[|es| - 1];
      AllFiledPrefix(es, keys, |es| - 1);
      BucketsPartition(init, keys);
      SplitLast(es);
      PartitionStep(init, e, keys);
    }
  }

  lemma PartitionStep(es: seq<Entry>, e: Entry, keys: seq<string>)
    requires Distinct(keys) && e.category in keys
    ensures TotalLength(Buckets(es + [e], keys)) == TotalLength(Buckets(es, keys)) + 1
  {
    BucketsGrow(es, e, keys);
    OccursOnce(keys, e.category);
  }

  lemma {:induction false} EmptyListsTotal(lists: seq<seq<string>>)
    requires forall j :: 0 <= j < |lists| ==> lists[j] == []
    ensures TotalLength(lists) == 0
  {
    if lists != [] {
      EmptyListsTotal(lists[..|lists| - 1]);
    }
  }

  lemma {:induction false} BucketAppend(a: seq<Entry>, b: seq<Entry>, key: string)
    ensures Bucket(a + b, key) == Bucket(a, key) + Bucket(b, key)
    decreases |b|
  {
    if b == [] {
      assert a + b == a;
    } else {
      var init := b[..|b| - 1];
      assert (a + b)[..|a + b| - 1] == a + init;
      BucketAppend(a, init, key);
    }
  }

  /** Reordering the entries reorders each bucket and changes nothing else. */
  lemma {:induction false} BucketPermutation(a: seq<Entry>, b: seq<Entry>, key: string)
    requires multiset(a) == multiset(b)
    ensures multiset(Bucket(a, key)) == multiset(Bucket(b, key))
    decreases |a|
  {
    if a == [] {
      assert |multiset(b)| == 0;
    } else {
      var init := a[..|a| - 1];
      var e := a[|a| - 1];
      SplitLast(a);
      assert e in multiset(b);
      var i :| 0 <= i < |b| && b[i] == e;
      var rest := b[..i] + b[i + 1..];
      RemoveAt(b, i);
      BucketPermutation(init, rest, key);
      var p, q, one := Bucket(b[..i], key), Bucket(b[i + 1..], key), Bucket([e], key);
      BucketAppend(init, [e], key);
      BucketAppend(b[..i], [e] + b[i + 1..], key);
      BucketAppend([e], b[i + 1..], key);
      BucketAppend(b[..i], b[i + 1..], key);
      MultisetMiddle(p, one, q);
    }
  }

  /** Taking out the element at `i`. */
  lemma RemoveAt<T>(b: seq<T>, i: nat)
    requires i < |b|
    ensures b == b[..i] + ([b[i]] + b[i + 1..])
    ensures multiset(b[..i] + b[i + 1..]) == multiset(b) - multiset{b[i]}
  {
    assert b == b[..i] + [b[i]] + b[i + 1..];
  }

  /** Whether every entry has a key does not depend on their order. */
  lemma AllFiledPermutation(a: seq<Entry>, b: seq<Entry>, keys: seq<string>)
    requires multiset(a) == multiset(b)
    ensures AllFiled(a, keys) <==> AllFiled(b, keys)
  {
    if AllFiled(a, keys) { AllFiledOf(a, b, keys); }
    if AllFiled(b, keys) { AllFiledOf(b, a, keys); }
  }

  lemma AllFiledOf(a: seq<Entry>, b: seq<Entry>, keys: seq<string>)
    requires multiset(a) == multiset(b) && AllFiled(a, keys)
    ensures AllFiled(b, keys)
  {
    forall i | 0 <= i < |b| ensures b[i].category in keys {
      assert b[i] in multiset(a);
      var k :| 0 <= k < |a| && a[k] == b[i];
    }
  }

  /** Every entry's text is in the bucket of its own category. */
  lemma {:induction false} InBucket(es: seq<Entry>, i: nat)
    requires i < |es|
    ensures es[i].text in Bucket(es, es[i].category)
  {
    var init := es[..|es| - 1];
    if i < |es| - 1 {
      assert init[i] == es[i];
      InBucket(init, i);
    }
  }

  /** Lists of the same lengths hold the same number of strings. */
  lemma {:induction false} TotalLengthOfLengths(a: seq<seq<string>>, b: seq<seq<string>>)
    requires |a| == |b| && forall j :: 0 <= j < |a| ==> |a[j]| == |b[j]|
    ensures TotalLength(a) == TotalLength(b)
  {
    if a != [] {
      TotalLengthOfLengths(a[..|a| - 1], b[..|b| - 1]);
    }
  }

  /** Moving a middle part to the end keeps the multiset. */
  lemma MultisetMiddle<T>(p: seq<T>, x: seq<T>, q: seq<T>)
    ensures multiset(p + (x + q)) == multiset(p + q) + multiset(x)
  {
  }

  /** Reordering the messages reorders their entries. */
  lemma {:induction false} EntriesPermutation(a: seq<string>, b: seq<string>, entryOf: string -> Entry)
    requires multiset(a) == multiset(b)
    ensures multiset(Entries(a, entryOf)) == multiset(Entries(b, entryOf))
    decreases |a|
  {
    if a == [] {
      assert |multiset(b)| == 0;
    } else {
      var init := a[..|a| - 1];
      var m := a[|a| - 1];
      SplitLast(a);
      assert m in multiset(b);
      var i :| 0 <= i < |b| && b[i] == m;
      var rest := b[..i] + b[i + 1..];
      RemoveAt(b, i);
      EntriesPermutation(init, rest, entryOf);
      var p, q, one := Entries(b[..i], entryOf), Entries(b[i + 1..], entryOf), Entries([m], entryOf);
      EntriesAppend(init, [m], entryOf);
      EntriesAppend(b[..i], [m] + b[i + 1..], entryOf);
      EntriesAppend([m], b[i + 1..], entryOf);
      EntriesAppend(b[..i], b[i + 1..], entryOf);
      MultisetMiddle(p, one, q);
    }
  }

  lemma EntriesAppend(a: seq<string>, b: seq<string>, entryOf: string -> Entry)
    ensures Entries(a + b, entryOf) == Entries(a, entryOf) + Entries(b, entryOf)
  {
    var l, r := Entries(a + b, entryOf), Entries(a, entryOf) + Entries(b, entryOf);
    assert |l| == |r|;
    forall i | 0 <= i < |l| ensures l[i] == r[i] {
      if i < |a| { assert (a + b)[i] == a[i]; } else { assert (a + b)[i] == b[i - |a|]; }
    }
  }
}
