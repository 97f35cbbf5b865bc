/** Prefix scans over a bucket's keys, and the two kinds of composite key they rest on. */
module Cursor {
  import opened Text
  import opened Sorting

  /** What follows the prefix in the keys that have it. */
  function Tails(bucket: set<string>, prefix: string): set<string> {
    set k | k in bucket && prefix <= k :: k[|prefix|..]
  }

  lemma {:induction false} PrefixNotLess(prefix: string, k: string)
    requires prefix <= k
    ensures !Less(k, prefix)
  {
    if prefix != "" {
      assert prefix[0] == k[0] && prefix[1..] <= k[1..];
      PrefixNotLess(prefix[1..], k[1..]);
    }
  }

  /** Keys with a common prefix are contiguous in byte order. */
  lemma {:induction false} PastPrefix(prefix: string, a: string, b: string)
    requires !Less(a, prefix) && !(prefix <= a) && Less(a, b)
    ensures !(prefix <= b)
  {
    if prefix <= b {
      if prefix != "" && a != "" && a[0] == prefix[0] {
        assert prefix == [prefix[0]] + prefix[1..] && a == [a[0]] + a[1..];
        assert prefix[1..] <= b[1..];
        PastPrefix(prefix[1..], a[1..], b[1..]);
      }
    }
  }

  method Seek(keys: seq<string>, prefix: string) returns (i: nat)
    ensures i <= |keys| && (forall j :: 0 <= j < i ==> Less(keys[j], prefix))
    ensures i < |keys| ==> !Less(keys[i], prefix)
  {
    i := 0;
    while i < |keys| && Less(keys[i], prefix)
      invariant i <= |keys| && forall j :: 0 <= j < i ==> Less(keys[j], prefix)
    {
      i := i + 1;
    }
  }

  /** Seek to the prefix, then Next while it lasts: this visits all keys that have the
      prefix, in ascending order of what follows it. */
  method Scan(bucket: set<string>, prefix: string) returns (tails: seq<string>)
    ensures tails == Ascending(Tails(bucket, prefix))
  {
    var keys := Ascending(bucket);
    var start := Seek(keys, prefix);
    var i := start;
    tails := [];
    while i < |keys| && prefix <= keys[i]
      invariant start <= i <= |keys| && |tails| == i - start
      invariant forall j :: start <= j < i ==> prefix <= keys[j] && tails[j - start] == keys[j][|prefix|..]
    {
      tails := tails + [keys[i][|prefix|..]];
      i := i + 1;
    }
    ScanComplete(bucket, prefix, keys, start, i, tails);
  }

  lemma ScanComplete(bucket: set<string>, prefix: string, keys: seq<string>, start: nat, end: nat, tails: seq<string>)
    requires Lists(keys, bucket, Less) && start <= end <= |keys| && |tails| == end - start
    requires forall j :: 0 <= j < start ==> Less(keys[j], prefix)
    requires start < |keys| ==> !Less(keys[start], prefix)
    requires forall j :: start <= j < end ==> prefix <= keys[j] && tails[j - start] == keys[j][|prefix|..]
    requires end < |keys| ==> !(prefix <= keys[end])
    ensures tails == Ascending(Tails(bucket, prefix))
  {
    PrefixInside(prefix, keys, start, end);
    forall t ensures t in tails <==> t in Tails(bucket, prefix) {
      TailFound(bucket, prefix, keys, start, end, tails, t);
    }
    TailsAscend(prefix, keys, start, end, tails);
    LessIsOrder(Tails(bucket, prefix));
    ListsUnique(tails, Ascending(Tails(bucket, prefix)), Tails(bucket, prefix), Less);
  }

  /** The keys that have the prefix all lie within the scan. */
  lemma PrefixInside(prefix: string, keys: seq<string>, start: nat, end: nat)
    requires Sorted(keys, Less) && start <= end <= |keys|
    requires forall j :: 0 <= j < start ==> Less(keys[j], prefix)
    requires start < |keys| ==> !Less(keys[start], prefix)
    requires end < |keys| ==> !(prefix <= keys[end])
    ensures forall j :: 0 <= j < |keys| && prefix <= keys[j] ==> start <= j < end
  {
    forall j | 0 <= j < |keys| && prefix <= keys[j] ensures start <= j < end {
      PrefixNotLess(prefix, keys[j]);
      if end <= j { StoppedAt(prefix, keys, start, end, j); }
    }
  }

  lemma StoppedAt(prefix: string, keys: seq<string>, start: nat, end: nat, j: nat)
    requires Sorted(keys, Less) && start <= end <= j < |keys|
    requires !Less(keys[start], prefix) && !(prefix <= keys[end])
    ensures !(prefix <= keys[j])
  {
    assert start == end || Less(keys[start], keys[end]);
    assert end == j || Less(keys[end], keys[j]);
    Stopped(prefix, keys[start], keys[end], keys[j]);
  }

  lemma TailFound(bucket: set<string>, prefix: string, keys: seq<string>, start: nat, end: nat, tails: seq<string>,
      t: string)
    requires Lists(keys, bucket, Less) && start <= end <= |keys| && |tails| == end - start
    requires forall j :: start <= j < end ==> prefix <= keys[j] && tails[j - start] == keys[j][|prefix|..]
    requires forall j :: 0 <= j < |keys| && prefix <= keys[j] ==> start <= j < end
    ensures t in tails <==> t in Tails(bucket, prefix)
  {
    if t in tails {
      var i :| 0 <= i < |tails| && tails[i] == t;
      assert keys[start + i] in keys;
    }
    if t in Tails(bucket, prefix) {
      var k :| k in bucket && prefix <= k && k[|prefix|..] == t;
      var j :| 0 <= j < |keys| && keys[j] == k;
      assert tails[j - start] == t;
    }
  }

  /** Once the scan has stopped, no later key has the prefix. */
  lemma Stopped(prefix: string, first: string, stop: string, k: string)
    requires !Less(first, prefix) && !(prefix <= stop)
    requires first == stop || Less(first, stop)
    requires stop == k || Less(stop, k)
    ensures !(prefix <= k)
  {
    if Less(stop, prefix) {
      if first != stop { LessTransitive(first, stop, prefix); }
    } else if stop != k {
      PastPrefix(prefix, stop, k);
    }
  }

  lemma Cut(prefix: string, k: string)
    requires prefix <= k
    ensures k == prefix + k[|prefix|..]
  {
  }

  lemma TailsAscend(prefix: string, keys: seq<string>, start: nat, end: nat, tails: seq<string>)
    requires Sorted(keys, Less) && start <= end <= |keys| && |tails| == end - start
    requires forall j :: start <= j < end ==> prefix <= keys[j] && tails[j - start] == keys[j][|prefix|..]
    ensures Sorted(tails, Less)
  {
    forall i, j | 0 <= i < j < |tails| ensures Less(tails[i], tails[j]) {
      Cut(prefix, keys[start + i]);
      Cut(prefix, keys[start + j]);
      assert Less(keys[start + i], keys[start + j]);
      LessAfterPrefix(prefix, tails[i], tails[j]);
    }
  }
}
