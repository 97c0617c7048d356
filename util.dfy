/** examtex/util.py: the answer-choice permutation used when an exam is typeset, and the
    check that a configuration carries every required key. */
module Util {

  /** The keys a configuration must define, in the order they are reported. */
  const Required: seq<string> :=
    ["question_dir", "docopts", "head_foot", "front", "exam_dir",
     "course", "semester", "exam", "versions", "num_per_page"]

  /** The entries of keys that cfg lacks, in their order in keys. */
  function MissingKeys<V>(keys: seq<string>, cfg: map<string, V>): (r: seq<string>)
    ensures forall k :: k in r <==> k in keys && k !in cfg
    ensures |r| <= |keys|
    decreases |keys|
  {
    if keys == [] then []
    else
      var init := keys[..|keys| - 1];
      var k := keys[|keys| - 1];
      assert keys == init + [k];
      MissingKeys(init, cfg) + (if k in cfg then [] else [k])
  }

  /** check_config: reports the missing keys and accepts cfg iff there are none. */
  method CheckConfig<V>(cfg: map<string, V>) returns (ok: bool, missing: seq<string>)
    ensures missing == MissingKeys(Required, cfg)
    ensures ok <==> forall k :: k in Required ==> k in cfg
    ensures ok <==> missing == []
  {
    missing := CollectMissing(Required, cfg);
    ok := missing == [];
    assert missing != [] ==> missing[0] in missing;
  }

  /** The loop of check_config over the required keys. */
  method CollectMissing<V>(keys: seq<string>, cfg: map<string, V>) returns (missing: seq<string>)
    ensures missing == MissingKeys(keys, cfg)
  {
    missing := [];
    for i := 0 to |keys|
      invariant missing == MissingKeys(keys[..i], cfg)
    {
      assert keys[..i + 1][..i] == keys[..i] && keys[..i + 1][i] == keys[i];
      assert MissingKeys(keys[..i + 1], cfg) == MissingKeys(keys[..i], cfg) + (if keys[i] in cfg then [] else [keys[i]]);
      if keys[i] !in cfg {
        missing := missing + [keys[i]];
      }
    }
    assert keys[..|keys|] == keys;
  }

  // ------------------------------------------------------------- permutations

  /** Every entry of perm is an index Python accepts into a list of length n. */
  predicate ValidIndices(perm: seq<int>, n: nat)
  {
    forall j :: 0 <= j < |perm| ==> -(n as int) <= perm[j] < n
  }

  /** The position Python's index k denotes in a list of length n. */
  function Wrap(k: int, n: nat): (i: nat)
    requires -(n as int) <= k < n
    ensures i < n
  {
    if k < 0 then n + k else k
  }

  /** list.index(x): the first position of x. */
  function IndexOf(s: seq<int>, x: int): (j: nat)
    requires x in s
    ensures j < |s| && s[j] == x
    ensures forall k :: 0 <= k < j ==> s[k] != x
    decreases |s|
  {
    if s[0] == x then 0 else 1 + IndexOf(s[1..], x)
  }

  /** perm is a bijection on [0, n): in range, no index twice, every index present. */
  predicate IsBijection(perm: seq<int>, n: nat)
  {
    && |perm| == n
    && (forall j :: 0 <= j < n ==> 0 <= perm[j] < n)
    && (forall i, j :: 0 <= i < j < n ==> perm[i] != perm[j])
    && (forall c :: 0 <= c < n ==> c in perm)
  }

  /** The inverse of a bijection: the position at which perm holds each index. */
  function Inverse(perm: seq<int>): (inv: seq<int>)
    requires IsBijection(perm, |perm|)
    ensures |inv| == |perm|
    ensures forall c :: 0 <= c < |perm| ==> 0 <= inv[c] < |perm| && perm[inv[c]] == c
  {
    seq(|perm|, c requires 0 <= c < |perm| => IndexOf(perm, c))
  }

  /** permute: the displayed choices, result[j] = choices[permutation[j]], and the
      display position of choice 0, the correct answer. */
  function Permute<T>(choices: seq<T>, perm: seq<int>): (r: (seq<T>, nat))
    requires 0 in perm
    requires ValidIndices(perm, |choices|)
    ensures |r.0| == |perm|
    ensures forall j :: 0 <= j < |perm| ==> r.0[j] == choices[Wrap(perm[j], |choices|)]
    ensures r.1 < |perm| && perm[r.1] == 0 && forall j :: 0 <= j < r.1 ==> perm[j] != 0
    ensures r.0[r.1] == choices[0]
  {
    var correct := IndexOf(perm, 0);
    (seq(|perm|, j requires 0 <= j < |perm| => choices[Wrap(perm[j], |choices|)]), correct)
  }

  /** With a bijection, the displayed choices are a rearrangement of the choices. */
  lemma PermuteRearranges<T>(choices: seq<T>, perm: seq<int>)
    requires choices != []
    requires IsBijection(perm, |choices|)
    ensures 0 in perm && ValidIndices(perm, |choices|)
    ensures multiset(Permute(choices, perm).0) == multiset(choices)
  {
    var r := Permute(choices, perm).0;
    GatherRearranges(choices, perm);
    assert r == Gather(choices, perm);
  }

  function Gather<T>(c: seq<T>, p: seq<int>): (g: seq<T>)
    requires forall j :: 0 <= j < |p| ==> 0 <= p[j] < |c|
    ensures |g| == |p| && forall j :: 0 <= j < |p| ==> g[j] == c[p[j]]
  {
    seq(|p|, j requires 0 <= j < |p| => c[p[j]])
  }

  lemma {:induction false} GatherRearranges<T>(c: seq<T>, p: seq<int>)
    requires IsBijection(p, |c|)
    ensures multiset(Gather(c, p)) == multiset(c)
    decreases |c|
  {
    var n := |c|;
    if n > 0 {
      var m := IndexOf(p, n - 1);
      var p' := p[..m] + p[m + 1..];
      var c' := c[..n - 1];
      BijectionDrop(p, m);
      GatherRearranges(c', p');
      var g := Gather(c, p);
      GatherDrop(c, p, m);
      MultisetWithout(g, m);
      MultisetLast(c);
      calc {
        multiset(g);
        multiset(g[..m] + g[m + 1..]) + multiset{g[m]};
        multiset(Gather(c', p')) + multiset{c[n - 1]};
        multiset(c') + multiset{c[n - 1]};
        multiset(c);
      }
    } else {
      assert Gather(c, p) == [];
    }
  }

  lemma MultisetLast<T>(s: seq<T>)
    requires |s| > 0
    ensures multiset(s) == multiset(s[..|s| - 1]) + multiset{s[|s| - 1]}
  {
    assert s == s[..|s| - 1] + [s[|s| - 1]];
  }

  lemma MultisetWithout<T>(s: seq<T>, m: nat)
    requires m < |s|
    ensures multiset(s) == multiset(s[..m] + s[m + 1..]) + multiset{s[m]}
  {
    assert s == s[..m] + [s[m]] + s[m + 1..];
  }

  /** Removing the position that holds the largest index leaves a bijection one smaller. */
  lemma BijectionDrop(p: seq<int>, m: nat)
    requires |p| > 0 && IsBijection(p, |p|)
    requires m < |p| && p[m] == |p| - 1
    ensures IsBijection(p[..m] + p[m + 1..], |p| - 1)
  {
    var n := |p|;
    var p' := p[..m] + p[m + 1..];
    assert forall j :: 0 <= j < n - 1 ==> p'[j] == (if j < m then p[j] else p[j + 1]);
    forall j | 0 <= j < n - 1 ensures 0 <= p'[j] < n - 1 {
      if j < m { assert p[j] != p[m]; } else { assert p[j + 1] != p[m]; }
    }
    forall x | 0 <= x < n - 1 ensures x in p' {
      assert x in p;
      var k :| 0 <= k < n && p[k] == x;
      assert k != m;
      if k < m { assert p'[k] == x; } else { assert p'[k - 1] == x; }
    }
  }

  lemma GatherDrop<T>(c: seq<T>, p: seq<int>, m: nat)
    requires |c| > 0 && IsBijection(p, |c|)
    requires m < |p| && p[m] == |c| - 1
    requires IsBijection(p[..m] + p[m + 1..], |c| - 1)
    ensures Gather(c[..|c| - 1], p[..m] + p[m + 1..]) == Gather(c, p)[..m] + Gather(c, p)[m + 1..]
    ensures Gather(c, p)[m] == c[|c| - 1]
  {
    var p' := p[..m] + p[m + 1..];
    var g := Gather(c, p);
    var g' := Gather(c[..|c| - 1], p');
    assert |g'| == |g[..m] + g[m + 1..]|;
    forall j | 0 <= j < |g'| ensures g'[j] == (g[..m] + g[m + 1..])[j] {
      if j < m { assert p'[j] == p[j]; } else { assert p'[j] == p[j + 1]; }
    }
  }
}
