/** The 64-bit hash and the topology fingerprint (src/selector/consistent_hash.rs). */
module Fnv {
  import opened Types

  const OFFSET_BASIS: bv64 := 0xcbf29ce484222325

  // The machine operations, one by one: multiplication wraps modulo 2^64.

  function Xor(h: bv64, b: bv8): bv64 { h ^ (b as bv64) }

  function Shift(h: bv64): bv64 { h ^ (h >> 33) }

  function TimesPrime(h: bv64): bv64 { h * 0x100000001b3 }

  function TimesFirst(h: bv64): bv64 { h * 0xff51afd7ed558ccd }

  function TimesSecond(h: bv64): bv64 { h * 0xc4ceb9fe1a85ec53 }

  // Multiplication by the inverse of each odd constant modulo 2^64.

  function OverPrime(h: bv64): bv64 { h * 0xce965057aff6957b }

  function OverFirst(h: bv64): bv64 { h * 0x4f74430c22a54005 }

  function OverSecond(h: bv64): bv64 { h * 0x9cb4b2f8129337db }

  /** Exclusive-or in one byte, multiply by the FNV prime. */
  function Step(h: bv64, b: bv8): bv64 {
    TimesPrime(Xor(h, b))
  }

  function Fold(h: bv64, s: Text): bv64 {
    if s == [] then h else Step(Fold(h, s[..|s| - 1]), s[|s| - 1])
  }

  /** The avalanche mixer: three shifts and two multiplications. */
  function Finalise(h: bv64): bv64 {
    Shift(TimesSecond(Shift(TimesFirst(Shift(h)))))
  }

  function Hash(s: Text): bv64 {
    Finalise(Fold(OFFSET_BASIS, s))
  }

  const WORDS: int := 0x1_0000_0000_0000_0000

  /** The number a 64-bit word stands for. */
  function Value(h: bv64): (n: nat)
    ensures n < WORDS
  {
    h as nat
  }

  lemma ValueInjective(h: bv64, g: bv64)
    requires Value(h) == Value(g)
    ensures h == g
  {
    assert (h as nat) as bv64 == h;
    assert (g as nat) as bv64 == g;
  }

  lemma FoldOneMore(s: Text, b: bv8, before: bv64)
    requires before == Fold(OFFSET_BASIS, s)
    ensures Fold(OFFSET_BASIS, s + [b]) == Step(before, b)
  {
    assert (s + [b])[..|s|] == s;
  }

  /** Published vectors of 64-bit FNV-1a for "", "a", "b" and "foobar", and the finished hash of "a". */
  lemma KnownAnswers()
    ensures Fold(OFFSET_BASIS, []) == 0xcbf29ce484222325
    ensures Fold(OFFSET_BASIS, [97]) == 0xaf63dc4c8601ec8c
    ensures Fold(OFFSET_BASIS, [98]) == 0xaf63df4c8601f1a5
    ensures Fold(OFFSET_BASIS, [102, 111, 111, 98, 97, 114]) == 0x85944171f73967e8
    ensures Hash([97]) == 0x82a2a958a9bece5b
  {
    FoldOneMore([], 97, OFFSET_BASIS);
    FoldOneMore([], 98, OFFSET_BASIS);
    assert [] + [97 as bv8] == [97] && [] + [98 as bv8] == [98];
    FoldOneMore([], 102, 0xcbf29ce484222325);
    assert [] + [102 as bv8] == [102 as bv8];
    assert Step(0xcbf29ce484222325, 102) == 0xaf63db4c8601ead9;
    FoldOneMore([102], 111, 0xaf63db4c8601ead9);
    assert [102 as bv8] + [111 as bv8] == [102 as bv8, 111];
    assert Step(0xaf63db4c8601ead9, 111) == 0x08985907b541d342;
    FoldOneMore([102, 111], 111, 0x08985907b541d342);
    assert [102 as bv8, 111] + [111 as bv8] == [102 as bv8, 111, 111];
    assert Step(0x08985907b541d342, 111) == 0xdcb27518fed9d577;
    FoldOneMore([102, 111, 111], 98, 0xdcb27518fed9d577);
    assert [102 as bv8, 111, 111] + [98 as bv8] == [102 as bv8, 111, 111, 98];
    assert Step(0xdcb27518fed9d577, 98) == 0xdd120e790c2512af;
    FoldOneMore([102, 111, 111, 98], 97, 0xdd120e790c2512af);
    assert [102 as bv8, 111, 111, 98] + [97 as bv8] == [102 as bv8, 111, 111, 98, 97];
    assert Step(0xdd120e790c2512af, 97) == 0xcac165afa2fef40a;
    FoldOneMore([102, 111, 111, 98, 97], 114, 0xcac165afa2fef40a);
    assert [102 as bv8, 111, 111, 98, 97] + [114 as bv8] == [102 as bv8, 111, 111, 98, 97, 114];
    assert Step(0xcac165afa2fef40a, 114) == 0x85944171f73967e8;
  }

  // ---- Every step can be undone ----

  function Unstep(h: bv64, b: bv8): bv64 {
    Xor(OverPrime(h), b)
  }

  function Unfinalise(h: bv64): bv64 {
    Shift(OverFirst(Shift(OverSecond(Shift(h)))))
  }

  lemma ShiftWord(h: bv64)
    ensures Shift(h ^ (h >> 33)) == h
  {
  }

  lemma ShiftUndoesItself(h: bv64)
    ensures Shift(Shift(h)) == h
  {
    ShiftWord(h);
    assert Shift(h) == h ^ (h >> 33);
  }

  lemma XorUndoesItself(h: bv64, b: bv8)
    ensures Xor(Xor(h, b), b) == h
  {
  }

  lemma PrimeWord(h: bv64)
    ensures OverPrime(h * 0x100000001b3) == h
  {
  }

  lemma PrimeUndone(h: bv64)
    ensures OverPrime(TimesPrime(h)) == h
  {
    hide OverPrime;
    PrimeWord(h);
    assert TimesPrime(h) == h * 0x100000001b3;
  }

  lemma FirstWord(h: bv64)
    ensures OverFirst(h * 0xff51afd7ed558ccd) == h
  {
  }

  lemma FirstUndone(h: bv64)
    ensures OverFirst(TimesFirst(h)) == h
  {
    hide OverFirst;
    FirstWord(h);
    assert TimesFirst(h) == h * 0xff51afd7ed558ccd;
  }

  lemma FirstBackWord(h: bv64)
    ensures TimesFirst(h * 0x4f74430c22a54005) == h
  {
  }

  lemma FirstBackUndone(h: bv64)
    ensures TimesFirst(OverFirst(h)) == h
  {
    hide TimesFirst;
    FirstBackWord(h);
    assert OverFirst(h) == h * 0x4f74430c22a54005;
  }

  lemma SecondWord(h: bv64)
    ensures OverSecond(h * 0xc4ceb9fe1a85ec53) == h
  {
  }

  lemma SecondUndone(h: bv64)
    ensures OverSecond(TimesSecond(h)) == h
  {
    hide OverSecond;
    SecondWord(h);
    assert TimesSecond(h) == h * 0xc4ceb9fe1a85ec53;
  }

  lemma SecondBackWord(h: bv64)
    ensures TimesSecond(h * 0x9cb4b2f8129337db) == h
  {
  }

  lemma SecondBackUndone(h: bv64)
    ensures TimesSecond(OverSecond(h)) == h
  {
    hide TimesSecond;
    SecondBackWord(h);
    assert OverSecond(h) == h * 0x9cb4b2f8129337db;
  }

  /** A hash step loses nothing: given the byte, the state before it can be computed back. */
  lemma StepUndone(h: bv64, b: bv8)
    ensures Unstep(Step(h, b), b) == h
  {
    hide TimesPrime, OverPrime, Xor;
    PrimeUndone(Xor(h, b));
    XorUndoesItself(h, b);
  }

  /** The mixer is a bijection on 64-bit words, and Unfinalise is its inverse. */
  lemma FinaliseBijective(h: bv64)
    ensures Unfinalise(Finalise(h)) == h
    ensures Finalise(Unfinalise(h)) == h
  {
    hide Shift, TimesFirst, TimesSecond, OverFirst, OverSecond;
    ShiftUndoesItself(h);
    FirstUndone(Shift(h));
    ShiftUndoesItself(TimesFirst(Shift(h)));
    SecondUndone(Shift(TimesFirst(Shift(h))));
    ShiftUndoesItself(TimesSecond(Shift(TimesFirst(Shift(h)))));
    SecondBackUndone(Shift(h));
    ShiftUndoesItself(OverSecond(Shift(h)));
    FirstBackUndone(Shift(OverSecond(Shift(h))));
    ShiftUndoesItself(OverFirst(Shift(OverSecond(Shift(h)))));
  }

  lemma StepSeparatesBytes(h: bv64, b: bv8, c: bv8)
    requires Step(h, b) == Step(h, c)
    ensures b == c
  {
    hide TimesPrime, OverPrime, Xor;
    PrimeUndone(Xor(h, b));
    PrimeUndone(Xor(h, c));
    XorCancel(h, b, c);
  }

  lemma XorCancel(h: bv64, b: bv8, c: bv8)
    requires Xor(h, b) == Xor(h, c)
    ensures b == c
  {
  }

  lemma {:induction false} FoldSeparatesStates(h: bv64, g: bv64, s: Text)
    requires Fold(h, s) == Fold(g, s)
    ensures h == g
  {
    hide Step, Unstep;
    if s != [] {
      var last := |s| - 1;
      StepUndone(Fold(h, s[..last]), s[last]);
      StepUndone(Fold(g, s[..last]), s[last]);
      FoldSeparatesStates(h, g, s[..last]);
    }
  }

  lemma {:induction false} FoldConcat(h: bv64, s: Text, t: Text)
    ensures Fold(h, s + t) == Fold(Fold(h, s), t)
  {
    if t == [] {
      assert s + t == s;
    } else {
      var last := |t| - 1;
      assert (s + t)[..|s| + last] == s + t[..last];
      FoldConcat(h, s, t[..last]);
    }
  }

  /** Strings of the same length that differ in exactly one byte never have the same hash. */
  lemma OneByteNeverCollides(s: Text, t: Text, k: nat)
    requires |s| == |t| && k < |s| && s[k] != t[k]
    requires forall i :: 0 <= i < |s| && i != k ==> s[i] == t[i]
    ensures Hash(s) != Hash(t)
  {
    var front, back := s[..k], s[k + 1..];
    assert s == front + ([s[k]] + back) && t == front + ([t[k]] + back);
    var h := Fold(OFFSET_BASIS, front);
    FoldConcat(OFFSET_BASIS, front, [s[k]] + back);
    FoldConcat(OFFSET_BASIS, front, [t[k]] + back);
    FoldConcat(h, [s[k]], back);
    FoldConcat(h, [t[k]], back);
    FoldOne(h, s[k]);
    FoldOne(h, t[k]);
    if Hash(s) == Hash(t) {
      FinaliseBijective(Fold(OFFSET_BASIS, s));
      FinaliseBijective(Fold(OFFSET_BASIS, t));
      FoldSeparatesStates(Step(h, s[k]), Step(h, t[k]), back);
      StepSeparatesBytes(h, s[k], t[k]);
    }
  }

  lemma FoldOne(h: bv64, b: bv8)
    ensures Fold(h, [b]) == Step(h, b)
  {
    assert [b][..0] == [];
  }

  method Fnv1aHash(s: Text) returns (hash: bv64)
    ensures hash == Hash(s)
  {
    hide Shift, TimesFirst, TimesSecond, TimesPrime, Xor;
    hash := OFFSET_BASIS;
    for i := 0 to |s|
      invariant hash == Fold(OFFSET_BASIS, s[..i])
    {
      assert s[..i + 1][..i] == s[..i];
      hash := Xor(hash, s[i]);
      hash := TimesPrime(hash);
    }
    assert s[..|s|] == s;
    hash := Shift(hash);
    hash := TimesFirst(hash);
    hash := Shift(hash);
    hash := TimesSecond(hash);
    hash := Shift(hash);
  }

  // ---- Fingerprints ----

  function Joined(ids: seq<Text>): Text {
    if ids == [] then [] else Joined(ids[..|ids| - 1]) + ids[|ids| - 1]
  }

  /** The fingerprint folds the ids one after the other with nothing between them: it is the
    * fold of their concatenation. */
  function Fingerprint(ids: seq<Text>): bv64 {
    Fold(OFFSET_BASIS, Joined(ids))
  }

  lemma JoinedNone(ids: seq<Text>)
    ensures Fold(OFFSET_BASIS, Joined(ids[..0])) == OFFSET_BASIS
  {
  }

  lemma JoinedStep(ids: seq<Text>, i: nat)
    requires i < |ids|
    ensures Joined(ids[..i + 1]) == Joined(ids[..i]) + ids[i]
  {
    assert ids[..i + 1][..i] == ids[..i];
  }

  lemma FoldStep(front: Text, id: Text, j: nat)
    requires j < |id|
    ensures Fold(OFFSET_BASIS, front + id[..j + 1]) == TimesPrime(Xor(Fold(OFFSET_BASIS, front + id[..j]), id[j]))
  {
    hide TimesPrime, Xor;
    var longer := front + id[..j + 1];
    assert longer[..|longer| - 1] == front + id[..j] && longer[|longer| - 1] == id[j];
  }

  method ComputeFingerprint(list: seq<ServiceInstance>) returns (hash: bv64)
    ensures hash == Fingerprint(Ids(list))
  {
    hide TimesPrime, Xor, Fold, Joined;
    JoinedNone(Ids(list));
    hash := OFFSET_BASIS;
    for i := 0 to |list|
      invariant hash == Fold(OFFSET_BASIS, Joined(Ids(list)[..i]))
    {
      var id := list[i].serviceId;
      ghost var before := Joined(Ids(list)[..i]);
      assert before + id[..0] == before;
      for j := 0 to |id|
        invariant hash == Fold(OFFSET_BASIS, before + id[..j])
      {
        FoldStep(before, id, j);
        hash := Xor(hash, id[j]);
        hash := TimesPrime(hash);
      }
      assert id[..|id|] == id;
      JoinedStep(Ids(list), i);
    }
    assert Ids(list)[..|list|] == Ids(list);
  }

  /** The fingerprint of one id is its fold, without the mixer. */
  lemma FingerprintOfOne(id: Text)
    ensures Fingerprint([id]) == Fold(OFFSET_BASIS, id)
  {
    assert [id][..0] == [] && Joined([id]) == [] + id == id;
  }

  /** Id sequences with the same concatenation share a fingerprint, wherever the boundaries are. */
  lemma FingerprintIgnoresBoundaries(ids: seq<Text>, others: seq<Text>)
    requires Joined(ids) == Joined(others)
    ensures Fingerprint(ids) == Fingerprint(others)
  {
  }

  /** Fingerprints do tell apart id sequences whose concatenations have the same length and differ
    * in one byte - one replica renamed in one character, say. */
  lemma FingerprintSeesOneByte(ids: seq<Text>, others: seq<Text>, k: nat)
    requires |Joined(ids)| == |Joined(others)| && k < |Joined(ids)| && Joined(ids)[k] != Joined(others)[k]
    requires forall i :: 0 <= i < |Joined(ids)| && i != k ==> Joined(ids)[i] == Joined(others)[i]
    ensures Fingerprint(ids) != Fingerprint(others)
  {
    OneByteNeverCollides(Joined(ids), Joined(others), k);
  }
}
