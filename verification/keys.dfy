/** Fresh keys for the in-memory stores. The source draws `uuid4()` strings
    until one is unused; the model picks the first unused string of the
    sequence "", "k", "kk", ... — any unused key is as good, and one of the
    first |keys| + 1 candidates is always unused. */
module Keys {

  type Key = string

  function Candidate(n: nat): (k: Key)
    ensures |k| == n
  {
    seq(n, _ => 'k')
  }

  /** The first `n` candidates, as a set. */
  function Candidates(n: nat): (c: set<Key>)
    ensures |c| == n
    ensures forall m :: 0 <= m < n ==> Candidate(m) in c
    ensures forall k :: k in c ==> |k| < n && k == Candidate(|k|)
  {
    if n == 0 then {}
    else
      var prev := Candidates(n - 1);
      assert Candidate(n - 1) !in prev;
      prev + {Candidate(n - 1)}
  }

  /** Some candidate among the first |keys| + 1 is not in use. */
  lemma {:induction false} SomeCandidateIsFree(keys: set<Key>)
    ensures exists m :: 0 <= m <= |keys| && Candidate(m) !in keys
  {
    if forall m :: 0 <= m <= |keys| ==> Candidate(m) in keys {
      var c := Candidates(|keys| + 1);
      assert c <= keys by {
        forall k | k in c ensures k in keys {
          assert Candidate(|k|) == k;
        }
      }
      SubsetCardinality(c, keys);
      assert false;
    }
  }

  lemma {:induction false} SubsetCardinality<T>(a: set<T>, b: set<T>)
    requires a <= b
    ensures |a| <= |b|
    decreases |a|
  {
    if a != {} {
      var x :| x in a;
      SubsetCardinality(a - {x}, b - {x});
    }
  }

  function FirstFreeFrom(keys: set<Key>, n: nat): (k: Key)
    requires n <= |keys| + 1
    requires exists m :: n <= m <= |keys| && Candidate(m) !in keys
    ensures k !in keys
    decreases |keys| + 1 - n
  {
    if Candidate(n) !in keys then Candidate(n) else FirstFreeFrom(keys, n + 1)
  }

  /** A key not in `keys`: the model's stand-in for the uuid4 retry loop. */
  function FreshKey(keys: set<Key>): (k: Key)
    ensures k !in keys
  {
    SomeCandidateIsFree(keys);
    FirstFreeFrom(keys, 0)
  }
}
