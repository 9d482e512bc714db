/**
 Board construction for the meme memory game: the ordered list of meme ids
 in which every id occurs twice, and the shuffle that rearranges it.

 A meme id `m` stands for the card image `memes/m.jpg`; two cards match
 exactly when their ids are equal.
 */
module Board {

  /** The ids 1..k in ascending order. */
  function Ids(k: nat): (r: seq<nat>)
    ensures |r| == k
    ensures forall i :: 0 <= i < k ==> r[i] == i + 1
  {
    if k == 0 then [] else Ids(k - 1) + [k]
  }

  /** Each of the ids 1..k occurs once in `Ids(k)`, and nothing else occurs. */
  lemma {:induction false} IdsOccurOnce(k: nat)
    ensures forall id :: multiset(Ids(k))[id] == (if 1 <= id <= k then 1 else 0)
  {
    if k > 0 {
      IdsOccurOnce(k - 1);
      assert Ids(k) == Ids(k - 1) + [k];
      assert multiset(Ids(k)) == multiset(Ids(k - 1)) + multiset{k};
    }
  }

  /** A board of `2 * k` cards on which each id 1..k occurs exactly twice
      and no other id occurs. */
  ghost predicate PairedBoard(memes: seq<nat>, k: nat)
  {
    && |memes| == 2 * k
    && forall id :: multiset(memes)[id] == (if 1 <= id <= k then 2 else 0)
  }

  /** Every card of a paired board carries an id in 1..k. */
  lemma PairedBoardIds(memes: seq<nat>, k: nat)
    requires PairedBoard(memes, k)
    ensures forall i :: 0 <= i < |memes| ==> 1 <= memes[i] <= k
  {
    forall i | 0 <= i < |memes|
      ensures 1 <= memes[i] <= k
    {
      assert memes[i] in multiset(memes);
    }
  }

  /** The unshuffled board for `pairCount` pairs: the ids 1..pairCount,
      followed by the same ids again. */
  function GenerateMemePairs(pairCount: nat): (r: seq<nat>)
    ensures PairedBoard(r, pairCount)
    ensures forall i :: 0 <= i < pairCount ==> r[i] == i + 1
    ensures forall i :: pairCount <= i < |r| ==> r[i] == i - pairCount + 1
  {
    IdsOccurOnce(pairCount);
    var ids := Ids(pairCount);
    assert multiset(ids + ids) == multiset(ids) + multiset(ids);
    ids + ids
  }

  /** One exchange of two board positions; the shuffle is a list of them. */
  datatype Exchange = Exchange(i: nat, j: nat)

  /** Exchanges the cards at `e.i` and `e.j`; an exchange naming a position
      off the board leaves it as it is. */
  function Swap(a: seq<nat>, e: Exchange): (r: seq<nat>)
    ensures |r| == |a|
    ensures multiset(r) == multiset(a)
    ensures e.i < |a| && e.j < |a| ==> r[e.i] == a[e.j] && r[e.j] == a[e.i]
    ensures forall k :: 0 <= k < |a| && k != e.i && k != e.j ==> r[k] == a[k]
  {
    if e.i < |a| && e.j < |a| then a[e.i := a[e.j]][e.j := a[e.i]] else a
  }

  /** Rearranges the board by applying the exchanges in order. The random
      choices of the game's `shuffleArray` are the parameter `exchanges`. */
  function Shuffle(a: seq<nat>, exchanges: seq<Exchange>): (r: seq<nat>)
    ensures |r| == |a|
    ensures multiset(r) == multiset(a)
    decreases |exchanges|
  {
    if exchanges == [] then a else Shuffle(Swap(a, exchanges[0]), exchanges[1..])
  }

  /** Shuffling keeps a board paired: every id still occurs exactly twice. */
  lemma ShuffleKeepsPairs(memes: seq<nat>, k: nat, exchanges: seq<Exchange>)
    requires PairedBoard(memes, k)
    ensures PairedBoard(Shuffle(memes, exchanges), k)
  {
  }

  /** The shuffle is able to produce every rearrangement of its input:
      nothing but the multiset of ids is fixed. */
  lemma ShuffleReachesEveryArrangement(a: seq<nat>, b: seq<nat>)
    requires multiset(a) == multiset(b)
    ensures exists exchanges :: Shuffle(a, exchanges) == b
  {
    assert |a| == |multiset(a)| == |multiset(b)| == |b|;
    assert a[..0] == b[..0];
    assert a[0..] == a && b[0..] == b;
    ReachFrom(a, b, 0);
  }

  /** Positions before `p` already agree; the suffixes hold the same ids. */
  lemma {:induction false} ReachFrom(a: seq<nat>, b: seq<nat>, p: nat)
    requires p <= |a| == |b|
    requires a[..p] == b[..p]
    requires multiset(a[p..]) == multiset(b[p..])
    ensures exists exchanges :: Shuffle(a, exchanges) == b
    decreases |a| - p
  {
    if p == |a| {
      assert a == a[..p] && b == b[..p];
      assert Shuffle(a, []) == b;
    } else {
      assert b[p..][0] == b[p];
      assert b[p] in multiset(a[p..]);
      var k :| 0 <= k < |a[p..]| && a[p..][k] == b[p];
      var e := Exchange(p, p + k);
      var a' := Swap(a, e);
      PlaceNext(a, b, p, p + k);
      ReachFrom(a', b, p + 1);
      var rest :| Shuffle(a', rest) == b;
      assert ([e] + rest)[0] == e && ([e] + rest)[1..] == rest;
      assert Shuffle(a, [e] + rest) == b;
    }
  }

  /** Moving the wanted id from position `j` to position `p` extends the
      agreeing prefix by one and keeps the suffixes equal as multisets. */
  lemma PlaceNext(a: seq<nat>, b: seq<nat>, p: nat, j: nat)
    requires p <= j < |a| == |b|
    requires a[..p] == b[..p]
    requires multiset(a[p..]) == multiset(b[p..])
    requires a[j] == b[p]
    ensures Swap(a, Exchange(p, j))[..p + 1] == b[..p + 1]
    ensures multiset(Swap(a, Exchange(p, j))[p + 1..]) == multiset(b[p + 1..])
  {
    var a' := Swap(a, Exchange(p, j));
    assert a'[..p] == a[..p];
    assert a'[p] == b[p];
    assert a'[..p + 1] == a'[..p] + [a'[p]];
    assert b[..p + 1] == b[..p] + [b[p]];
    SuffixMultiset(a, a', p);
    assert a'[p..] == [b[p]] + a'[p + 1..];
    assert b[p..] == [b[p]] + b[p + 1..];
    assert multiset(a'[p..]) == multiset{b[p]} + multiset(a'[p + 1..]);
    assert multiset(b[p..]) == multiset{b[p]} + multiset(b[p + 1..]);
    assert multiset(a'[p + 1..]) == multiset(a'[p..]) - multiset{b[p]};
    assert multiset(b[p + 1..]) == multiset(b[p..]) - multiset{b[p]};
  }

  /** Two rearrangements that agree before `p` hold the same ids from `p` on. */
  lemma SuffixMultiset(a: seq<nat>, a': seq<nat>, p: nat)
    requires p <= |a| == |a'|
    requires multiset(a) == multiset(a')
    requires a[..p] == a'[..p]
    ensures multiset(a[p..]) == multiset(a'[p..])
  {
    assert a == a[..p] + a[p..];
    assert a' == a'[..p] + a'[p..];
    assert multiset(a) == multiset(a[..p]) + multiset(a[p..]);
    assert multiset(a') == multiset(a'[..p]) + multiset(a'[p..]);
    forall x
      ensures multiset(a[p..])[x] == multiset(a'[p..])[x]
    {
      assert multiset(a)[x] == multiset(a[..p])[x] + multiset(a[p..])[x];
      assert multiset(a')[x] == multiset(a'[..p])[x] + multiset(a'[p..])[x];
    }
  }
}
