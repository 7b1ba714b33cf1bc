/**
 * Facts about iterating over Python sets and dicts, whose order the model
 * does not fix: an enumeration lists every element of a set once, in some
 * order. Also the schedule of a counter that fires on every k-th step.
 */
module Collections {

  predicate NoDuplicates<T(==)>(s: seq<T>) {
    forall i, j :: 0 <= i < j < |s| ==> s[i] != s[j]
  }

  /** `s` lists the elements of `S`, each exactly once, in some order. */
  ghost predicate Enumerates<T(!new)>(s: seq<T>, S: set<T>) {
    NoDuplicates(s) && (forall x :: x in s <==> x in S)
  }

  /** An enumeration has one entry per element of the set. */
  lemma {:induction false} EnumerationLength<T(!new)>(s: seq<T>, S: set<T>)
    requires Enumerates(s, S)
    ensures |s| == |S|
  {
    if s != [] {
      var rest := s[1..];
      assert s[0] !in rest by {
        forall j | 0 <= j < |rest| ensures rest[j] != s[0] {
          assert rest[j] == s[j + 1];
        }
      }
      assert Enumerates(rest, S - {s[0]}) by {
        forall x ensures x in rest <==> x in S - {s[0]} {
          if x in S - {s[0]} {
            assert x in s && x != s[0];
            var k :| 0 <= k < |s| && s[k] == x;
            assert rest[k - 1] == x;
          }
        }
      }
      EnumerationLength(rest, S - {s[0]});
    }
  }

  /**
   * The values of a 1-based counter `i`, counting up to `n`, at which
   * `i % k == 0`: the steps at which a check like `if i % k == 0` fires.
   */
  function Checkpoints(n: nat, k: nat): seq<nat>
    requires k > 0
  {
    if n == 0 then [] else Checkpoints(n - 1, k) + (if n % k == 0 then [n] else [])
  }

  /** The counter fires at exactly the multiples of `k` from 1 to `n`, in increasing order. */
  lemma {:induction false} CheckpointsMembers(n: nat, k: nat)
    requires k > 0
    ensures forall j :: j in Checkpoints(n, k) <==> 1 <= j <= n && j % k == 0
    ensures forall a, b :: 0 <= a < b < |Checkpoints(n, k)| ==>
              Checkpoints(n, k)[a] < Checkpoints(n, k)[b]
  {
    if n > 0 {
      CheckpointsMembers(n - 1, k);
      var prev := Checkpoints(n - 1, k);
      forall a | 0 <= a < |prev| ensures prev[a] < n {
        assert prev[a] in Checkpoints(n - 1, k);
      }
    }
  }

  /** Crossing a multiple of `k` adds one to the quotient; anything else does not. */
  lemma DivStep(n: nat, k: nat)
    requires n > 0 && k > 0
    ensures n / k == (n - 1) / k + (if n % k == 0 then 1 else 0)
  {
    var q, r := (n - 1) / k, (n - 1) % k;
    assert n - 1 == q * k + r && 0 <= r < k;
    if r == k - 1 {
      assert n == (q + 1) * k;
      DivUnique(n, k, q + 1, 0);
    } else {
      assert n == q * k + (r + 1);
      DivUnique(n, k, q, r + 1);
    }
  }

  lemma MulAtLeast(d: nat, k: nat)
    requires d >= 1
    ensures d * k >= k
  {
    if d > 1 {
      MulAtLeast(d - 1, k);
      assert d * k == (d - 1) * k + k;
    }
  }

  lemma DivUnique(n: nat, k: nat, q: nat, r: nat)
    requires k > 0 && r < k && n == q * k + r
    ensures n / k == q && n % k == r
  {
    var q', r' := n / k, n % k;
    assert n == q' * k + r';
    if q' < q {
      assert (q - q') * k == q * k - q' * k;
      MulAtLeast(q - q', k);
    } else if q' > q {
      assert (q' - q) * k == q' * k - q * k;
      MulAtLeast(q' - q, k);
    }
  }

  /** A counter that fires on every k-th of n steps fires floor(n / k) times. */
  lemma {:induction false} CheckpointsCount(n: nat, k: nat)
    requires k > 0
    ensures |Checkpoints(n, k)| == n / k
  {
    if n > 0 {
      CheckpointsCount(n - 1, k);
      DivStep(n, k);
    }
  }

  /** The keys of `m` whose value satisfies `p`. */
  function KeysWhere<K, V>(m: map<K, V>, p: V -> bool): (r: set<K>)
    ensures r <= m.Keys
    ensures forall k :: k in m && p(m[k]) ==> k in r
  {
    set k | k in m && p(m[k])
  }

  /**
   * Moving one key from the to-do set to the done set adds one to the count
   * of done keys satisfying `p` exactly when its value satisfies `p`.
   */
  lemma CountStep<K, V>(m: map<K, V>, p: V -> bool, todo: set<K>, x: K)
    requires x in todo && x in m
    ensures |KeysWhere(m, p) - (todo - {x})| ==
            |KeysWhere(m, p) - todo| + (if p(m[x]) then 1 else 0)
  {
    var before := KeysWhere(m, p) - todo;
    if p(m[x]) {
      assert KeysWhere(m, p) - (todo - {x}) == before + {x};
    } else {
      assert KeysWhere(m, p) - (todo - {x}) == before;
    }
  }

  lemma {:induction false} SubsetSize<T>(a: set<T>, b: set<T>)
    requires a <= b
    ensures |a| <= |b|
  {
    if a != {} {
      var x :| x in a;
      SubsetSize(a - {x}, b - {x});
    }
  }

  /**
   * Part way through an iteration over `S`, the keys done and the keys to
   * do add up to all of `S`.
   */
  lemma EnumerationStep<T(!new)>(done: seq<T>, S: set<T>, todo: set<T>)
    requires NoDuplicates(done) && todo <= S
    requires forall x :: x in done ==> x in S && x !in todo
    requires forall x :: x in S ==> x in done || x in todo
    ensures |done| + |todo| == |S|
  {
    assert Enumerates(done, S - todo);
    EnumerationLength(done, S - todo);
    assert S == (S - todo) + todo;
  }

  /** Some enumeration of a finite set: the order in which Python happens to iterate it. */
  method Enumerate<T(!new)>(S: set<T>) returns (s: seq<T>)
    ensures Enumerates(s, S)
  {
    s := [];
    var todo := S;
    while todo != {}
      invariant todo <= S
      invariant NoDuplicates(s)
      invariant forall x :: x in s <==> x in S && x !in todo
      decreases todo
    {
      var x :| x in todo;
      s := s + [x];
      todo := todo - {x};
    }
  }

  /**
   * A prefix of a list without duplicates has none and misses the entries
   * after it; it grows by one entry at a time.
   */
  lemma PrefixFacts<T>(s: seq<T>, n: nat)
    requires NoDuplicates(s) && n <= |s|
    ensures NoDuplicates(s[..n])
    ensures forall j :: n <= j < |s| ==> s[j] !in s[..n]
    ensures n < |s| ==> s[..n + 1] == s[..n] + [s[n]]
  {
  }
}
