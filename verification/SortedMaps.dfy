// A map kept as entries in strictly increasing key order: what iterating a `BTreeMap` shows.
// Keys are compared by code point, which for text is the byte order of its UTF-8 form.
module SortedMaps {
  import opened Results

  datatype Entry<V> = Entry(key: string, value: V)

  predicate Less(a: string, b: string) {
    b != [] && (a == [] || a[0] < b[0] || (a[0] == b[0] && Less(a[1..], b[1..])))
  }

  lemma {:induction false} LessIrreflexive(a: string)
    ensures !Less(a, a)
  {
    if a != [] { LessIrreflexive(a[1..]); }
  }

  lemma {:induction false} LessTransitive(a: string, b: string, c: string)
    requires Less(a, b) && Less(b, c)
    ensures Less(a, c)
  {
    if a != [] && a[0] == b[0] == c[0] { LessTransitive(a[1..], b[1..], c[1..]); }
  }

  lemma {:induction false} LessTotal(a: string, b: string)
    ensures Less(a, b) || a == b || Less(b, a)
  {
    if a != [] && b != [] && a[0] == b[0] {
      LessTotal(a[1..], b[1..]);
      assert a == [a[0]] + a[1..] && b == [b[0]] + b[1..];
    }
  }

  // After a common beginning `a` ends, or has the smaller character.
  ghost predicate DecidedAt(a: string, b: string, i: nat) {
    i <= |a| && i < |b| && a[..i] == b[..i] && (i == |a| || a[i] < b[i])
  }

  lemma {:induction false} LessIsDecided(a: string, b: string) returns (i: nat)
    requires Less(a, b)
    ensures DecidedAt(a, b, i)
    decreases a
  {
    if a == [] || a[0] < b[0] {
      i := 0;
    } else {
      var k := LessIsDecided(a[1..], b[1..]);
      i := k + 1;
      assert a[..i] == [a[0]] + a[1..][..k] && b[..i] == [b[0]] + b[1..][..k];
    }
  }

  lemma {:induction false} DecidedIsLess(a: string, b: string, i: nat)
    requires DecidedAt(a, b, i)
    ensures Less(a, b)
    decreases a
  {
    if i > 0 {
      assert a[..i][0] == b[..i][0];
      assert a[1..][..i - 1] == a[..i][1..] && b[1..][..i - 1] == b[..i][1..];
      DecidedIsLess(a[1..], b[1..], i - 1);
    }
  }

  // The order of words: the end of the one, or the first difference, decides.
  lemma LessIsLexicographic(a: string, b: string)
    ensures Less(a, b) <==> exists i: nat :: DecidedAt(a, b, i)
  {
    if Less(a, b) {
      var i := LessIsDecided(a, b);
    }
    if i: nat :| DecidedAt(a, b, i) {
      DecidedIsLess(a, b, i);
    }
  }

  ghost predicate Sorted<V>(s: seq<Entry<V>>) {
    forall i, j :: 0 <= i < j < |s| ==> Less(s[i].key, s[j].key)
  }

  function Find<V>(s: seq<Entry<V>>, key: string): Option<V> {
    if s == [] then None
    else if s[0].key == key then Some(s[0].value)
    else Find(s[1..], key)
  }

  // `BTreeMap::insert`: the entry takes its place, or replaces the value of an equal key.
  function Put<V>(s: seq<Entry<V>>, key: string, value: V): (r: seq<Entry<V>>)
    ensures forall e :: e in r ==> e in s || e == Entry(key, value)
  {
    if s == [] then [Entry(key, value)]
    else if s[0].key == key then [Entry(key, value)] + s[1..]
    else if Less(key, s[0].key) then [Entry(key, value)] + s
    else [s[0]] + Put(s[1..], key, value)
  }

  // `BTreeMap::remove`.
  function Delete<V>(s: seq<Entry<V>>, key: string): (r: seq<Entry<V>>)
    ensures forall e :: e in r ==> e in s
  {
    if s == [] then []
    else if s[0].key == key then s[1..]
    else [s[0]] + Delete(s[1..], key)
  }

  lemma {:induction false} PutSorted<V>(s: seq<Entry<V>>, key: string, value: V)
    requires Sorted(s)
    ensures Sorted(Put(s, key, value))
  {
    if s != [] && s[0].key != key {
      LessTotal(key, s[0].key);
      if Less(key, s[0].key) {
        forall j | 0 <= j < |s| ensures Less(key, s[j].key) {
          if j > 0 { LessTransitive(key, s[0].key, s[j].key); }
        }
      } else {
        PutSorted(s[1..], key, value);
        assert forall e :: e in s[1..] ==> Less(s[0].key, e.key);
      }
    }
  }

  lemma {:induction false} DeleteSorted<V>(s: seq<Entry<V>>, key: string)
    requires Sorted(s)
    ensures Sorted(Delete(s, key))
  {
    if s != [] && s[0].key != key {
      DeleteSorted(s[1..], key);
      assert forall e :: e in s[1..] ==> Less(s[0].key, e.key);
    }
  }

  lemma {:induction false} FindInside<V>(s: seq<Entry<V>>, key: string)
    ensures Find(s, key).Some? ==> Entry(key, Find(s, key).value) in s
    ensures Find(s, key).None? ==> forall e :: e in s ==> e.key != key
  {
    if s != [] {
      FindInside(s[1..], key);
      assert s == [s[0]] + s[1..];
    }
  }

  lemma FindAbsent<V>(s: seq<Entry<V>>, key: string)
    requires forall e :: e in s ==> e.key != key
    ensures Find(s, key).None?
  {
    FindInside(s, key);
  }

  // Keys before the first one are absent.
  lemma FindBefore<V>(s: seq<Entry<V>>, key: string)
    requires Sorted(s) && s != [] && Less(key, s[0].key)
    ensures Find(s, key).None?
  {
    forall e | e in s ensures e.key != key {
      if e.key == key {
        var i :| 0 <= i < |s| && s[i] == e;
        if i > 0 { LessTransitive(key, s[0].key, s[i].key); }
        LessIrreflexive(key);
      }
    }
    FindAbsent(s, key);
  }

  lemma {:induction false} PutFind<V>(s: seq<Entry<V>>, key: string, value: V, other: string)
    requires Sorted(s)
    ensures Find(Put(s, key, value), other) == if other == key then Some(value) else Find(s, other)
  {
    if s != [] && s[0].key != key && !Less(key, s[0].key) {
      PutFind(s[1..], key, value, other);
      assert ([s[0]] + Put(s[1..], key, value))[1..] == Put(s[1..], key, value);
    }
  }

  lemma {:induction false} DeleteFind<V>(s: seq<Entry<V>>, key: string, other: string)
    requires Sorted(s)
    ensures Find(Delete(s, key), other) == if other == key then None else Find(s, other)
  {
    if s != [] {
      if s[0].key == key {
        forall e | e in s[1..] ensures e.key != key {
          LessIrreflexive(key);
        }
        FindAbsent(s[1..], key);
      } else {
        DeleteFind(s[1..], key, other);
        assert ([s[0]] + Delete(s[1..], key))[1..] == Delete(s[1..], key);
      }
    }
  }

  // Two ordered maps with the same lookups are the same sequence of entries.
  lemma {:induction false} Extensional<V(!new)>(a: seq<Entry<V>>, b: seq<Entry<V>>)
    requires Sorted(a) && Sorted(b)
    requires forall key :: Find(a, key) == Find(b, key)
    ensures a == b
  {
    assert a != [] ==> Find(a, a[0].key).Some?;
    assert b != [] ==> Find(b, b[0].key).Some?;
    if a != [] && b != [] {
      LessTotal(a[0].key, b[0].key);
      assert Find(a, a[0].key) == Find(b, a[0].key) && Find(a, b[0].key) == Find(b, b[0].key);
      if Less(a[0].key, b[0].key) {
        FindBefore(b, a[0].key);
      } else if Less(b[0].key, a[0].key) {
        FindBefore(a, b[0].key);
      }
      assert a[0] == b[0];
      forall key ensures Find(a[1..], key) == Find(b[1..], key) {
        assert Find(a, key) == Find(b, key);
        if key == a[0].key {
          LessIrreflexive(key);
          FindAbsent(a[1..], key);
          FindAbsent(b[1..], key);
        }
      }
      Extensional(a[1..], b[1..]);
      assert a == [a[0]] + a[1..] && b == [b[0]] + b[1..];
    }
  }

  // Insertion order leaves no trace.
  lemma PutCommutes<V(!new)>(s: seq<Entry<V>>, k1: string, v1: V, k2: string, v2: V)
    requires Sorted(s) && k1 != k2
    ensures Put(Put(s, k1, v1), k2, v2) == Put(Put(s, k2, v2), k1, v1)
  {
    PutSorted(s, k1, v1);
    PutSorted(s, k2, v2);
    PutSorted(Put(s, k1, v1), k2, v2);
    PutSorted(Put(s, k2, v2), k1, v1);
    forall key ensures Find(Put(Put(s, k1, v1), k2, v2), key) == Find(Put(Put(s, k2, v2), k1, v1), key) {
      PutFind(s, k1, v1, key);
      PutFind(s, k2, v2, key);
      PutFind(Put(s, k1, v1), k2, v2, key);
      PutFind(Put(s, k2, v2), k1, v1, key);
    }
    Extensional(Put(Put(s, k1, v1), k2, v2), Put(Put(s, k2, v2), k1, v1));
  }

  // A key after all others goes to the end.
  lemma {:induction false} PutLast<V>(s: seq<Entry<V>>, key: string, value: V)
    requires forall e :: e in s ==> Less(e.key, key)
    ensures Put(s, key, value) == s + [Entry(key, value)]
    ensures Find(s, key).None?
  {
    LessIrreflexive(key);
    FindAbsent(s, key);
    if s != [] {
      if Less(key, s[0].key) { LessTransitive(key, s[0].key, key); }
      assert Less(s[0].key, key);
      assert forall e :: e in s[1..] ==> e in s;
      PutLast(s[1..], key, value);
      assert s == [s[0]] + s[1..];
    }
  }
}
