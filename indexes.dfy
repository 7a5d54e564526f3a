/** File indexes built by successive writes, and iteration orders of key sets. */
module Indexes {
  import opened SyncTypes

  /** The index after each item of `xs`, in order, has been written into `files` under `key(x)`
      with fingerprint `value(x)`, as `files[p] = hash` does: a later write to a key overwrites
      an earlier one. */
  function Record<T>(files: FileIndex, key: T -> string, value: T -> string, xs: seq<T>): FileIndex
  {
    if xs == [] then files
    else
      var last := xs[|xs| - 1];
      Record(files, key, value, xs[..|xs| - 1])[key(last) := value(last)]
  }

  /** Writing `a` and then `b` is writing `a + b`. */
  lemma {:induction false} RecordConcat<T>(files: FileIndex, key: T -> string, value: T -> string, a: seq<T>, b: seq<T>)
    ensures Record(files, key, value, a + b) == Record(Record(files, key, value, a), key, value, b)
  {
    if b == [] {
      assert a + b == a;
    } else {
      var init, last := b[..|b| - 1], b[|b| - 1];
      var ab := a + b;
      assert ab[..|ab| - 1] == a + init && ab[|ab| - 1] == last;
      var front := Record(files, key, value, a);
      calc {
        Record(files, key, value, ab);
        Record(files, key, value, a + init)[key(last) := value(last)];
        { RecordConcat(files, key, value, a, init); }
        Record(front, key, value, init)[key(last) := value(last)];
        Record(front, key, value, b);
      }
    }
  }

  /** The keys the items of `xs` are recorded under. */
  ghost function KeysOf<T>(key: T -> string, xs: seq<T>): set<string>
  {
    set x | x in xs :: key(x)
  }

  /** The keys of an index are exactly the keys written, plus those already there. */
  lemma {:induction false} RecordKeys<T>(files: FileIndex, key: T -> string, value: T -> string, xs: seq<T>)
    ensures Record(files, key, value, xs).Keys == files.Keys + KeysOf(key, xs)
  {
    if xs != [] {
      var init, last := xs[..|xs| - 1], xs[|xs| - 1];
      RecordKeys(files, key, value, init);
      assert xs == init + [last];
      assert KeysOf(key, xs) == KeysOf(key, init) + {key(last)};
    }
  }

  /** The fingerprint kept for a key is that of the last item written under that key. */
  lemma {:induction false} RecordLastWins<T>(files: FileIndex, key: T -> string, value: T -> string, xs: seq<T>, i: nat)
    requires i < |xs|
    requires forall j :: i < j < |xs| ==> key(xs[j]) != key(xs[i])
    ensures key(xs[i]) in Record(files, key, value, xs)
    ensures Record(files, key, value, xs)[key(xs[i])] == value(xs[i])
  {
    if i < |xs| - 1 {
      RecordLastWins(files, key, value, xs[..|xs| - 1], i);
    }
  }

  predicate NoDuplicates(q: seq<string>)
  {
    forall i, j :: 0 <= i < j < |q| ==> q[i] != q[j]
  }

  /** `q` is an iteration order of `s`: each element of `s` exactly once. */
  predicate IsEnumeration(q: seq<string>, s: set<string>)
  {
    && NoDuplicates(q)
    && (forall x :: x in q ==> x in s)
    && (forall x :: x in s ==> x in q)
  }

  /** A loop over an iteration order of `s` runs `|s|` times. */
  lemma {:induction false} EnumerationSize(q: seq<string>, s: set<string>)
    requires IsEnumeration(q, s)
    ensures |q| == |s|
  {
    if q != [] {
      var init := q[..|q| - 1];
      var last := q[|q| - 1];
      assert last !in init;
      assert forall x :: x in init <==> x in s - {last} by {
        assert q == init + [last];
      }
      EnumerationSize(init, s - {last});
    }
  }

  /** Some iteration order of `s`. JavaScript fixes insertion order for objects and sets; the model leaves the order open. */
  method Enumerate(s: set<string>) returns (q: seq<string>)
    ensures IsEnumeration(q, s)
  {
    q := [];
    var rest := s;
    while rest != {}
      invariant NoDuplicates(q)
      invariant forall x :: x in q ==> x !in rest
      invariant forall x :: x in q || x in rest <==> x in s
      decreases rest
    {
      var x :| x in rest;
      q := q + [x];
      rest := rest - {x};
    }
  }
}
