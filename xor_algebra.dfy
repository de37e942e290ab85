/** The XOR algebra behind the acking scheme: a 64-bit accumulator into which
    tuple ids are XORed, in any order and with any multiplicity. */
module XorAlgebra {
  import opened Bitwise
  import opened Ids

  /** The XOR of the ids of a sequence of tuples (0 for none): what an
      accumulator starting at 0 holds after receiving them. */
  function XorAll(s: seq<Tuple>): u64
  {
    if s == [] then 0 else Xor(s[0].id, XorAll(s[1..]))
  }

  /** The fold of a concatenation is the XOR of the two folds. */
  lemma {:induction false} XorAllConcat(a: seq<Tuple>, b: seq<Tuple>)
    ensures XorAll(a + b) == Xor(XorAll(a), XorAll(b))
  {
    if a == [] {
      assert a + b == b;
      XorZero(XorAll(b));
    } else {
      assert (a + b)[1..] == a[1..] + b;
      XorAllConcat(a[1..], b);
      XorAssoc(a[0].id, XorAll(a[1..]), XorAll(b));
    }
  }

  /** XORing one more tuple into the fold is the fold of the longer sequence. */
  lemma XorAllSnoc(s: seq<Tuple>, x: Tuple)
    ensures XorAll(s + [x]) == Xor(XorAll(s), x.id)
  {
    XorAllConcat(s, [x]);
    assert [x][1..] == [];
    XorZero(x.id);
  }

  /** Taking one tuple out of the fold is XORing it in once more. */
  lemma XorAllRemove(s: seq<Tuple>, i: nat)
    requires i < |s|
    ensures XorAll(s) == Xor(XorAll(s[..i] + s[i + 1..]), s[i].id)
  {
    var a, x, b := s[..i], s[i], s[i + 1..];
    assert s == a + ([x] + b);
    assert ([x] + b)[1..] == b;
    XorAllConcat(a, [x] + b);
    XorAllConcat(a, b);
    XorComm(x.id, XorAll(b));
    XorAssoc(XorAll(a), XorAll(b), x.id);
  }

  /** Finds in `t` an occurrence of the first element of `s`; removing both
      keeps the two sequences permutations of each other. */
  lemma RemoveFromBoth(s: seq<Tuple>, t: seq<Tuple>) returns (i: nat)
    requires s != [] && multiset(s) == multiset(t)
    ensures i < |t| && t[i] == s[0]
    ensures multiset(s[1..]) == multiset(t[..i] + t[i + 1..])
  {
    var x, s' := s[0], s[1..];
    assert s == [x] + s';
    assert x in multiset(t);
    i :| 0 <= i < |t| && t[i] == x;
    var t' := t[..i] + t[i + 1..];
    assert t == t[..i] + [x] + t[i + 1..];
    assert multiset(t) == multiset(t[..i]) + multiset{x} + multiset(t[i + 1..]);
    assert multiset(t') == multiset(t[..i]) + multiset(t[i + 1..]);
    assert multiset(t') == multiset(t) - multiset{x};
    assert multiset(s') == multiset(s) - multiset{x};
  }

  /** Order independence: two sequences holding the same tuples with the
      same multiplicities fold to the same accumulator. */
  lemma {:induction false} XorAllPermutation(s: seq<Tuple>, t: seq<Tuple>)
    requires multiset(s) == multiset(t)
    ensures XorAll(s) == XorAll(t)
  {
    if s == [] {
      assert t == [] by { assert |t| == |multiset(t)| == 0; }
    } else {
      var i := RemoveFromBoth(s, t);
      var t' := t[..i] + t[i + 1..];
      XorAllPermutation(s[1..], t');
      XorAllRemove(t, i);
      XorComm(s[0].id, XorAll(s[1..]));
    }
  }

  /** XORing the same tuple twice in a row leaves the fold where it was. */
  lemma XorTwiceCancels(s: seq<Tuple>, x: Tuple)
    ensures XorAll(s + [x, x]) == XorAll(s)
  {
    assert s + [x, x] == (s + [x]) + [x];
    XorAllSnoc(s + [x], x);
    XorAllSnoc(s, x);
    XorSelfInverse(XorAll(s), x.id);
  }

  /** The intended "all done" case: when every tuple that was added is acked
      once, in any order, all of their contributions cancel. */
  lemma BalancedCancels(added: seq<Tuple>, acked: seq<Tuple>)
    requires multiset(acked) == multiset(added)
    ensures XorAll(added + acked) == 0
  {
    XorAllConcat(added, acked);
    XorAllPermutation(acked, added);
    XorSelfInverse(0, XorAll(added));
  }
}
