/** Per-entity counters of the correspondence network (`calculateMetrics` and
    `resetMaps`, code/ecoSystem/webservice/js/app.js).

    The accumulation is specified by the pure fold `Accumulate` over the
    letters; the class `MetricMaps` holds the shared dictionaries that the
    application updates in place, and its methods are proved to move them
    exactly as the fold says. */
module Metrics {
  import opened Common
  import opened Letters

  /** What `maps.meta[name]` records for an entity: the numbers of its
      letters, and per number the text, the title and the full record. */
  datatype Meta = Meta(numbers: set<int>, texts: map<int, string>, titles: map<int, string>,
                       fullData: map<int, Letter>)

  const NoMeta: Meta := Meta({}, map[], map[], map[])

  /** The five dictionaries `degree`, `out`, `in`, `myself` and `meta`. */
  datatype Counters = Counters(degree: map<string, int>, outCount: map<string, int>,
                               inCount: map<string, int>, myself: map<string, int>,
                               meta: map<string, Meta>)

  const Empty: Counters := Counters(map[], map[], map[], map[], map[])

  /** `m[k] = (m[k] || 0) + amount` for each `k` of `ks` in turn. */
  function BumpAll(m: map<string, int>, ks: seq<string>, amount: int): map<string, int> {
    if ks == [] then m
    else
      var m' := BumpAll(m, ks[..|ks| - 1], amount);
      m'[ks[|ks| - 1] := Get(m', ks[|ks| - 1]) + amount]
  }

  /** Every key rises by `amount` times its number of occurrences, and the
      keys touched are exactly those listed. */
  lemma BumpAllCount(m: map<string, int>, ks: seq<string>, amount: int)
    ensures forall x :: Get(BumpAll(m, ks, amount), x) == Get(m, x) + amount * Count(ks, x)
    ensures forall x :: x in BumpAll(m, ks, amount) <==> x in m || x in ks
  {
    BumpAllGet(m, ks, amount);
    BumpAllKeys(m, ks, amount);
  }

  lemma {:induction false} BumpAllGet(m: map<string, int>, ks: seq<string>, amount: int)
    ensures forall x :: Get(BumpAll(m, ks, amount), x) == Get(m, x) + amount * Count(ks, x)
  {
    if ks != [] {
      var init, last := ks[..|ks| - 1], ks[|ks| - 1];
      BumpAllGet(m, init, amount);
      assert ks == init + [last];
      forall x ensures Get(BumpAll(m, ks, amount), x) == Get(m, x) + amount * Count(ks, x) {
        CountSnoc(init, last, x);
        if x == last {
          MulSucc(amount, Count(init, x));
        }
      }
    }
  }

  lemma {:induction false} BumpAllKeys(m: map<string, int>, ks: seq<string>, amount: int)
    ensures forall x :: x in BumpAll(m, ks, amount) <==> x in m || x in ks
  {
    if ks != [] {
      var init, last := ks[..|ks| - 1], ks[|ks| - 1];
      BumpAllKeys(m, init, amount);
      assert forall x :: x in ks <==> x in init || x == last by {
        assert ks == init + [last];
      }
    }
  }

  lemma MulSucc(a: int, c: int)
    ensures a * (c + 1) == a * c + a
  {
  }

  /** Records letter `d` in the metadata of entity `k`, creating it on first use. */
  function Note(meta: map<string, Meta>, k: string, d: Letter): map<string, Meta> {
    meta[k := Record(if k in meta then meta[k] else NoMeta, d)]
  }

  /** The metadata `e` with letter `d` added under its number. */
  function Record(e: Meta, d: Letter): Meta {
    Meta(e.numbers + {d.number}, e.texts[d.number := d.text],
         e.titles[d.number := d.title], e.fullData[d.number := d])
  }

  /** Recording the same letter twice is recording it once. */
  lemma RecordTwice(e: Meta, d: Letter)
    ensures Record(Record(e, d), d) == Record(e, d)
  {
  }

  function NoteAll(meta: map<string, Meta>, ks: seq<string>, d: Letter): map<string, Meta> {
    if ks == [] then meta else Note(NoteAll(meta, ks[..|ks| - 1], d), ks[|ks| - 1], d)
  }

  /** One more key of a list, as a loop over it takes it. */
  lemma BumpAllNext(m: map<string, int>, ks: seq<string>, k: nat, amount: int)
    requires k < |ks|
    ensures var m' := BumpAll(m, ks[..k], amount);
      BumpAll(m, ks[..k + 1], amount) == m'[ks[k] := Get(m', ks[k]) + amount]
  {
    assert ks[..k + 1][..k] == ks[..k] && ks[..k + 1][k] == ks[k];
  }

  lemma NoteAllNext(meta: map<string, Meta>, ks: seq<string>, k: nat, d: Letter)
    requires k < |ks|
    ensures NoteAll(meta, ks[..k + 1], d) == Note(NoteAll(meta, ks[..k], d), ks[k], d)
  {
    assert ks[..k + 1][..k] == ks[..k] && ks[..k + 1][k] == ks[k];
  }

  /** Every listed entity gains the letter in its metadata (number, text,
      title and record); every other entity's metadata is unchanged. */
  lemma NoteAllEffect(meta: map<string, Meta>, ks: seq<string>, d: Letter)
    ensures forall x :: x in NoteAll(meta, ks, d) <==> x in meta || x in ks
    ensures forall x :: x in ks ==> NoteAll(meta, ks, d)[x] == Record(if x in meta then meta[x] else NoMeta, d)
    ensures forall x :: x in meta && x !in ks ==> NoteAll(meta, ks, d)[x] == meta[x]
  {
    NoteAllKeys(meta, ks, d);
    NoteAllListed(meta, ks, d);
    NoteAllOthers(meta, ks, d);
  }

  lemma {:induction false} NoteAllKeys(meta: map<string, Meta>, ks: seq<string>, d: Letter)
    ensures forall x :: x in NoteAll(meta, ks, d) <==> x in meta || x in ks
  {
    if ks != [] {
      var init, last := ks[..|ks| - 1], ks[|ks| - 1];
      NoteAllKeys(meta, init, d);
      assert forall x :: x in ks <==> x in init || x == last by {
        assert ks == init + [last];
      }
    }
  }

  lemma {:induction false} NoteAllListed(meta: map<string, Meta>, ks: seq<string>, d: Letter)
    ensures forall x :: x in ks ==>
      x in NoteAll(meta, ks, d) && NoteAll(meta, ks, d)[x] == Record(if x in meta then meta[x] else NoMeta, d)
  {
    if ks != [] {
      var init, last := ks[..|ks| - 1], ks[|ks| - 1];
      NoteAllListed(meta, init, d);
      NoteAllOthers(meta, init, d);
      NoteAllKeys(meta, init, d);
      assert forall x :: x in ks <==> x in init || x == last by {
        assert ks == init + [last];
      }
      if last in init {
        RecordTwice(if last in meta then meta[last] else NoMeta, d);
      }
    }
  }

  lemma {:induction false} NoteAllOthers(meta: map<string, Meta>, ks: seq<string>, d: Letter)
    ensures forall x :: x in meta && x !in ks ==> x in NoteAll(meta, ks, d) && NoteAll(meta, ks, d)[x] == meta[x]
  {
    if ks != [] {
      var init, last := ks[..|ks| - 1], ks[|ks| - 1];
      NoteAllOthers(meta, init, d);
      assert forall x :: x in ks <==> x in init || x == last by {
        assert ks == init + [last];
      }
    }
  }

  /** One letter's contribution, one dictionary at a time: each sender's
      `out` and `degree` rise by one; with no receiver each sender's `myself`
      rises by one, otherwise each receiver's `in` and `degree` rise by the
      number of senders. */
  function RecordStep(c: Counters, d: Letter): Counters {
    var S := Senders(d);
    var R := Receivers(d);
    if |R| == 0 then
      Counters(BumpAll(c.degree, S, 1), BumpAll(c.outCount, S, 1), c.inCount,
               BumpAll(c.myself, S, 1), NoteAll(c.meta, S, d))
    else
      Counters(BumpAll(BumpAll(c.degree, S, 1), R, |S|), BumpAll(c.outCount, S, 1),
               BumpAll(c.inCount, R, |S|), c.myself, NoteAll(NoteAll(c.meta, S, d), R, d))
  }

  /** `calculateMetrics(data, maps)` as a fold over the letters in order. */
  function Accumulate(c: Counters, data: seq<Letter>): Counters {
    if data == [] then c else RecordStep(Accumulate(c, data[..|data| - 1]), data[|data| - 1])
  }

  /** The counters one letter changes, key by key. `Count(S, x)` is how often
      `x` is listed among the senders (1 for a sender listed once). */
  lemma RecordStepCounts(c: Counters, d: Letter)
    ensures var S, R, c' := Senders(d), Receivers(d), RecordStep(c, d);
      forall x ::
        Get(c'.outCount, x) == Get(c.outCount, x) + Count(S, x) &&
        Get(c'.inCount, x) == Get(c.inCount, x) + (if R == [] then 0 else |S| * Count(R, x)) &&
        Get(c'.degree, x) == Get(c.degree, x) + Count(S, x) + (if R == [] then 0 else |S| * Count(R, x)) &&
        Get(c'.myself, x) == Get(c.myself, x) + (if R == [] then Count(S, x) else 0)
    ensures var S, R, c' := Senders(d), Receivers(d), RecordStep(c, d);
      forall x ::
        (x in c'.outCount <==> x in c.outCount || x in S) &&
        (x in c'.inCount <==> x in c.inCount || x in R) &&
        (x in c'.degree <==> x in c.degree || x in S || x in R) &&
        (x in c'.myself <==> x in c.myself || (R == [] && x in S))
  {
    var S, R := Senders(d), Receivers(d);
    BumpAllCount(c.degree, S, 1);
    BumpAllCount(c.outCount, S, 1);
    BumpAllCount(c.myself, S, 1);
    BumpAllCount(BumpAll(c.degree, S, 1), R, |S|);
    BumpAllCount(c.inCount, R, |S|);
  }

  /** The letter's number joins the metadata of every sender and, when it has
      addressees, of every receiver; no other entity's metadata changes. */
  lemma RecordStepMeta(c: Counters, d: Letter)
    ensures var S, R, c' := Senders(d), Receivers(d), RecordStep(c, d);
      forall x :: (x in S || x in R) ==> x in c'.meta && d.number in c'.meta[x].numbers
    ensures var S, R, c' := Senders(d), Receivers(d), RecordStep(c, d);
      forall x :: x in c'.meta <==> x in c.meta || x in S || x in R
    ensures var S, R, c' := Senders(d), Receivers(d), RecordStep(c, d);
      forall x :: x in c.meta && x !in S && x !in R ==> c'.meta[x] == c.meta[x]
  {
    var S, R := Senders(d), Receivers(d);
    NoteAllEffect(c.meta, S, d);
    NoteAllEffect(NoteAll(c.meta, S, d), R, d);
  }

  // ---- the whole run, against independent per-entity sums ----

  /** Letters sent by `x`, counting each listing among the senders. */
  function Sent(data: seq<Letter>, x: string): int {
    if data == [] then 0 else Sent(data[..|data| - 1], x) + Count(Senders(data[|data| - 1]), x)
  }

  /** Receipts of `x`, each weighted by the letter's number of senders. */
  function Received(data: seq<Letter>, x: string): int {
    if data == [] then 0
    else
      var d := data[|data| - 1];
      Received(data[..|data| - 1], x) + (if Receivers(d) == [] then 0 else |Senders(d)| * Count(Receivers(d), x))
  }

  /** Letters without addressee listing `x` as a sender. */
  function SentToNobody(data: seq<Letter>, x: string): int {
    if data == [] then 0
    else
      var d := data[|data| - 1];
      SentToNobody(data[..|data| - 1], x) + (if Receivers(d) == [] then Count(Senders(d), x) else 0)
  }

  /** After a full recomputation every counter is the corresponding sum over
      the letters, and `degree` is always `out` plus `in`. */
  lemma {:induction false} AccumulateCounts(data: seq<Letter>)
    ensures var c := Accumulate(Empty, data);
      forall x ::
        Get(c.outCount, x) == Sent(data, x) &&
        Get(c.inCount, x) == Received(data, x) &&
        Get(c.myself, x) == SentToNobody(data, x) &&
        Get(c.degree, x) == Sent(data, x) + Received(data, x)
  {
    if data != [] {
      AccumulateCounts(data[..|data| - 1]);
      RecordStepCounts(Accumulate(Empty, data[..|data| - 1]), data[|data| - 1]);
    }
  }

  lemma {:induction false} SumsNonNegative(data: seq<Letter>, x: string)
    ensures Sent(data, x) >= 0 && Received(data, x) >= 0 && SentToNobody(data, x) >= 0
  {
    if data != [] {
      SumsNonNegative(data[..|data| - 1], x);
    }
  }

  /** No counter of a recomputation is negative. */
  lemma DegreesNonNegative(data: seq<Letter>)
    ensures forall x :: Get(Accumulate(Empty, data).degree, x) >= 0
  {
    AccumulateCounts(data);
    forall x ensures Get(Accumulate(Empty, data).degree, x) >= 0 {
      SumsNonNegative(data, x);
    }
  }

  /** The shared `maps` object of the application. */
  class MetricMaps {
    var degree: map<string, int>
    var outCount: map<string, int>
    var inCount: map<string, int>
    var myself: map<string, int>
    var meta: map<string, Meta>

    function State(): Counters
      reads this
    {
      Counters(degree, outCount, inCount, myself, meta)
    }

    constructor ()
      ensures State() == Empty
    {
      degree, outCount, inCount, myself, meta := map[], map[], map[], map[], map[];
    }

    /** `resetMaps`: every dictionary is emptied. */
    method Reset()
      modifies this
      ensures State() == Empty
    {
      degree, outCount, inCount, myself, meta := map[], map[], map[], map[], map[];
    }

    /** `calculateMetrics`: folds the letters into the dictionaries. */
    method CalculateMetrics(data: seq<Letter>)
      modifies this
      ensures State() == Accumulate(old(State()), data)
    {
      var i := 0;
      while i < |data|
        invariant 0 <= i <= |data|
        invariant State() == Accumulate(old(State()), data[..i])
      {
        AddLetter(data[i]);
        assert data[..i + 1][..i] == data[..i];
        i := i + 1;
      }
      assert data[..i] == data;
    }

    /** The body of the `data.forEach` callback for one letter. */
    method AddLetter(d: Letter)
      modifies this
      ensures State() == RecordStep(old(State()), d)
    {
      var senders := Senders(d);
      var receivers := Receivers(d);
      AddSenders(d, senders);
      if |receivers| == 0 {
        AddSelfLetters(senders);
      } else {
        AddReceivers(d, receivers, |senders|);
      }
    }

    /** The `myself` loop for a letter without addressee. */
    method AddSelfLetters(senders: seq<string>)
      modifies this
      ensures myself == BumpAll(old(myself), senders, 1)
      ensures meta == old(meta) && outCount == old(outCount) && degree == old(degree)
      ensures inCount == old(inCount)
    {
      var j := 0;
      while j < |senders|
        invariant 0 <= j <= |senders|
        invariant myself == BumpAll(old(myself), senders[..j], 1)
        invariant meta == old(meta) && outCount == old(outCount) && degree == old(degree)
        invariant inCount == old(inCount)
      {
        var s := senders[j];
        assert senders[..j + 1][..j] == senders[..j];
        myself := myself[s := Get(myself, s) + 1];
        j := j + 1;
      }
      assert senders[..j] == senders;
    }

    /** The `receivers.forEach` loop: metadata, `in` and `degree` of each
        receiver, the counters rising by the number of senders. */
    method AddReceivers(d: Letter, receivers: seq<string>, senderCount: nat)
      modifies this
      ensures meta == NoteAll(old(meta), receivers, d)
      ensures inCount == BumpAll(old(inCount), receivers, senderCount)
      ensures degree == BumpAll(old(degree), receivers, senderCount)
      ensures outCount == old(outCount) && myself == old(myself)
    {
      var meta0, in0, degree0 := meta, inCount, degree;
      var m, ins, deg := meta0, in0, degree0;
      var k := 0;
      while k < |receivers|
        invariant 0 <= k <= |receivers|
        invariant m == NoteAll(meta0, receivers[..k], d)
        invariant ins == BumpAll(in0, receivers[..k], senderCount)
        invariant deg == BumpAll(degree0, receivers[..k], senderCount)
        modifies {}
      {
        var r := receivers[k];
        NoteAllNext(meta0, receivers, k, d);
        BumpAllNext(in0, receivers, k, senderCount);
        BumpAllNext(degree0, receivers, k, senderCount);
        m := Note(m, r, d);
        ins := ins[r := Get(ins, r) + senderCount];
        deg := deg[r := Get(deg, r) + senderCount];
        k := k + 1;
      }
      assert receivers[..k] == receivers;
      meta, inCount, degree := m, ins, deg;
    }

    /** The `senders.forEach` loop: metadata, `out` and `degree` of each sender. */
    method AddSenders(d: Letter, senders: seq<string>)
      modifies this
      ensures meta == NoteAll(old(meta), senders, d)
      ensures outCount == BumpAll(old(outCount), senders, 1)
      ensures degree == BumpAll(old(degree), senders, 1)
      ensures inCount == old(inCount) && myself == old(myself)
    {
      var j := 0;
      while j < |senders|
        invariant 0 <= j <= |senders|
        invariant meta == NoteAll(old(meta), senders[..j], d)
        invariant outCount == BumpAll(old(outCount), senders[..j], 1)
        invariant degree == BumpAll(old(degree), senders[..j], 1)
        invariant inCount == old(inCount) && myself == old(myself)
      {
        var s := senders[j];
        NoteAllNext(old(meta), senders, j, d);
        BumpAllNext(old(outCount), senders, j, 1);
        BumpAllNext(old(degree), senders, j, 1);
        meta := Note(meta, s, d);
        outCount := outCount[s := Get(outCount, s) + 1];
        degree := degree[s := Get(degree, s) + 1];
        j := j + 1;
      }
      assert senders[..j] == senders;
    }
  }
}
