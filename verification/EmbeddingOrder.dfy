/** Putting every embedding at the position it claims. */
module EmbeddingOrder {
  import opened Common

  /** One entry of `data`: its `index` if that is an integer, and its `embedding`. */
  datatype Entry<V> = Entry(index: Option<int>, embedding: Option<V>)

  /** `enumerate`: an entry and the position it arrived in. */
  datatype Arrival<V> = Arrival(position: nat, entry: Entry<V>)

  /** `_index_of` */
  function IndexOf<V>(a: Arrival<V>): int {
    match a.entry.index case Some(i) => i case None => a.position
  }

  function Enumerated<V>(data: seq<Entry<V>>): (arrivals: seq<Arrival<V>>)
    ensures |arrivals| == |data|
    ensures forall k | 0 <= k < |data| :: arrivals[k] == Arrival(k, data[k])
  {
    seq(|data|, k requires 0 <= k < |data| => Arrival(k, data[k]))
  }

  /** Does a sort by claimed index that keeps the order of equals put `a` before `b`? */
  predicate Before<V>(a: Arrival<V>, b: Arrival<V>) {
    IndexOf(a) < IndexOf(b) || (IndexOf(a) == IndexOf(b) && a.position < b.position)
  }

  ghost predicate Ordered<V>(xs: seq<Arrival<V>>) {
    forall i, j | 0 <= i < j < |xs| :: Before(xs[i], xs[j])
  }

  /** Into the place after every arrival whose claim is not greater. */
  function Insert<V>(xs: seq<Arrival<V>>, a: Arrival<V>): seq<Arrival<V>> {
    if xs == [] then [a]
    else
      var n := |xs| - 1;
      if IndexOf(xs[n]) <= IndexOf(a) then xs + [a] else Insert(xs[..n], a) + [xs[n]]
  }

  /** `sorted(..., key=...)`. */
  function Sorted<V>(xs: seq<Arrival<V>>): seq<Arrival<V>> {
    if xs == [] then [] else Insert(Sorted(xs[..|xs| - 1]), xs[|xs| - 1])
  }

  /** `_vectors`, for a `data` that is a list. */
  function Vectors<V>(data: seq<Entry<V>>): seq<Option<V>> {
    var ordered := Sorted(Enumerated(data));
    seq(|ordered|, i requires 0 <= i < |ordered| => ordered[i].entry.embedding)
  }

  // ----- a stable sort -----------------------------------------------------------------------

  lemma {:induction false} InsertPermutes<V>(xs: seq<Arrival<V>>, a: Arrival<V>)
    ensures multiset(Insert(xs, a)) == multiset(xs) + multiset{a}
  {
    if xs != [] {
      var n := |xs| - 1;
      assert xs == xs[..n] + [xs[n]];
      if IndexOf(xs[n]) > IndexOf(a) { InsertPermutes(xs[..n], a); }
    }
  }

  lemma {:induction false} InsertKeepsOrder<V>(xs: seq<Arrival<V>>, a: Arrival<V>)
    requires Ordered(xs) && forall i | 0 <= i < |xs| :: xs[i].position < a.position
    ensures Ordered(Insert(xs, a))
  {
    if xs != [] {
      var n := |xs| - 1;
      if IndexOf(xs[n]) > IndexOf(a) {
        InsertKeepsOrder(xs[..n], a);
        InsertPermutes(xs[..n], a);
        var front := Insert(xs[..n], a);
        forall i | 0 <= i < |front| ensures Before(front[i], xs[n]) {
          assert front[i] in multiset(front);
        }
      } else {
        forall i | 0 <= i < n ensures Before(xs[i], a) {
          assert Before(xs[i], xs[n]);
        }
      }
    }
  }

  /** The entries come out by claimed index, equals in the order they arrived, none lost and
      none twice. That leaves one possible outcome. */
  lemma {:induction false} SortedIsStable<V>(xs: seq<Arrival<V>>)
    requires forall i, j | 0 <= i < j < |xs| :: xs[i].position < xs[j].position
    ensures Ordered(Sorted(xs)) && multiset(Sorted(xs)) == multiset(xs) && |Sorted(xs)| == |xs|
  {
    if xs != [] {
      var n := |xs| - 1;
      assert xs == xs[..n] + [xs[n]];
      SortedIsStable(xs[..n]);
      var front := Sorted(xs[..n]);
      forall i | 0 <= i < |front| ensures front[i].position < xs[n].position {
        assert front[i] in multiset(xs[..n]);
      }
      InsertKeepsOrder(front, xs[n]);
      InsertPermutes(front, xs[n]);
      assert |Sorted(xs)| == |multiset(Sorted(xs))|;
    }
  }

  lemma LastIsGreatest<V>(xs: seq<Arrival<V>>, a: Arrival<V>)
    requires Ordered(xs) && a in multiset(xs)
    ensures xs != [] && (a == xs[|xs| - 1] || Before(a, xs[|xs| - 1]))
  {
    var i: nat :| i < |xs| && xs[i] == a;
  }

  lemma DropLast<V>(xs: seq<Arrival<V>>)
    requires xs != []
    ensures multiset(xs) == multiset(xs[..|xs| - 1]) + multiset{xs[|xs| - 1]}
  {
    assert xs == xs[..|xs| - 1] + [xs[|xs| - 1]];
  }

  lemma {:induction false} OrderIsUnique<V>(xs: seq<Arrival<V>>, ys: seq<Arrival<V>>)
    requires Ordered(xs) && Ordered(ys) && multiset(xs) == multiset(ys)
    ensures xs == ys
  {
    hide Ordered;
    if xs == [] {
      assert |multiset(ys)| == 0;
    } else {
      SameLast(xs, ys);
      SameFront(xs, ys);
      FrontIsOrdered(xs);
      FrontIsOrdered(ys);
      OrderIsUnique(xs[..|xs| - 1], ys[..|ys| - 1]);
      Rejoined(xs);
      Rejoined(ys);
    }
  }

  lemma SameFront<V>(xs: seq<Arrival<V>>, ys: seq<Arrival<V>>)
    requires multiset(xs) == multiset(ys) && xs != [] && ys != [] && xs[|xs| - 1] == ys[|ys| - 1]
    ensures multiset(xs[..|xs| - 1]) == multiset(ys[..|ys| - 1])
  {
    DropLast(xs);
    DropLast(ys);
    Cancelled(multiset(xs[..|xs| - 1]), multiset(ys[..|ys| - 1]), multiset{xs[|xs| - 1]});
  }

  lemma Cancelled<T>(a: multiset<T>, b: multiset<T>, c: multiset<T>)
    requires a + c == b + c
    ensures a == b
  {
    assert a == (a + c) - c && b == (b + c) - c;
  }

  lemma Rejoined<T>(xs: seq<T>)
    requires xs != []
    ensures xs == xs[..|xs| - 1] + [xs[|xs| - 1]]
  {
  }

  lemma SameLast<V>(xs: seq<Arrival<V>>, ys: seq<Arrival<V>>)
    requires Ordered(xs) && Ordered(ys) && multiset(xs) == multiset(ys) && xs != []
    ensures ys != [] && xs[|xs| - 1] == ys[|ys| - 1]
  {
    hide Ordered;
    assert xs[|xs| - 1] in multiset(xs);
    LastIsGreatest(ys, xs[|xs| - 1]);
    assert ys[|ys| - 1] in multiset(ys);
    LastIsGreatest(xs, ys[|ys| - 1]);
  }

  lemma FrontIsOrdered<V>(xs: seq<Arrival<V>>)
    requires Ordered(xs) && xs != []
    ensures Ordered(xs[..|xs| - 1])
  {
  }

  // ----- alignment -----------------------------------------------------------------------------

  /** The claims are 0, 1, ..., n-1, each made once. */
  ghost predicate Permutes<V>(data: seq<Entry<V>>) {
    var arrivals := Enumerated(data);
    && (forall k | 0 <= k < |data| :: 0 <= IndexOf(arrivals[k]) < |data|)
    && (forall k, l | 0 <= k < l < |data| :: IndexOf(arrivals[k]) != IndexOf(arrivals[l]))
  }

  /** Every entry stands where it says it belongs. */
  ghost predicate Aligned<V>(data: seq<Entry<V>>) {
    var arrivals, ordered := Enumerated(data), Sorted(Enumerated(data));
    && |ordered| == |data|
    && forall k | 0 <= k < |data| ::
       0 <= IndexOf(arrivals[k]) < |ordered| && ordered[IndexOf(arrivals[k])] == arrivals[k]
  }

  lemma {:induction false} AscendingFrom<V>(xs: seq<Arrival<V>>, i: nat)
    requires i < |xs| && forall k | 0 <= k < |xs| :: 0 <= IndexOf(xs[k])
    requires forall k, l | 0 <= k < l < |xs| :: IndexOf(xs[k]) < IndexOf(xs[l])
    ensures IndexOf(xs[i]) >= i
  {
    if i > 0 { AscendingFrom(xs, i - 1); }
  }

  lemma {:induction false} AscendingTo<V>(xs: seq<Arrival<V>>, i: nat)
    requires i < |xs| && forall k | 0 <= k < |xs| :: IndexOf(xs[k]) < |xs|
    requires forall k, l | 0 <= k < l < |xs| :: IndexOf(xs[k]) < IndexOf(xs[l])
    ensures IndexOf(xs[i]) <= i
    decreases |xs| - i
  {
    if i < |xs| - 1 { AscendingTo(xs, i + 1); }
  }

  lemma AscendingClaims<V>(data: seq<Entry<V>>, ordered: seq<Arrival<V>>)
    requires Permutes(data) && Ordered(ordered) && forall i | 0 <= i < |ordered| :: ordered[i] in Enumerated(data)
    ensures forall k, l | 0 <= k < l < |ordered| :: IndexOf(ordered[k]) < IndexOf(ordered[l])
  {
    var arrivals := Enumerated(data);
    forall k, l | 0 <= k < l < |ordered| ensures IndexOf(ordered[k]) < IndexOf(ordered[l]) {
      var a: nat :| a < |arrivals| && arrivals[a] == ordered[k];
      var b: nat :| b < |arrivals| && arrivals[b] == ordered[l];
      assert Before(ordered[k], ordered[l]);
      assert a < b ==> IndexOf(arrivals[a]) != IndexOf(arrivals[b]);
      assert b < a ==> IndexOf(arrivals[b]) != IndexOf(arrivals[a]);
    }
  }

  lemma PermutedIsAligned<V>(data: seq<Entry<V>>)
    requires Permutes(data)
    ensures Aligned(data)
  {
    hide Sorted, Ordered;
    var arrivals := Enumerated(data);
    SortedIsStable(arrivals);
    var ordered := Sorted(arrivals);
    forall i | 0 <= i < |ordered| ensures ordered[i] in arrivals {
      assert ordered[i] in multiset(arrivals);
    }
    AscendingClaims(data, ordered);
    forall k | 0 <= k < |data|
      ensures 0 <= IndexOf(arrivals[k]) < |ordered| && ordered[IndexOf(arrivals[k])] == arrivals[k]
    {
      assert arrivals[k] in multiset(ordered);
      var i: nat :| i < |ordered| && ordered[i] == arrivals[k];
      AscendingFrom(ordered, i);
      AscendingTo(ordered, i);
    }
  }

  /** Whatever order the entries arrived in, each ends at the position it claims exactly when
      the claims are a permutation of the positions. */
  lemma AlignedExactlyWhenPermuted<V>(data: seq<Entry<V>>)
    ensures Aligned(data) <==> Permutes(data)
  {
    hide Sorted;
    if Permutes(data) { PermutedIsAligned(data); }
    if Aligned(data) {
      var arrivals := Enumerated(data);
      forall k, l | 0 <= k < l < |data| ensures IndexOf(arrivals[k]) != IndexOf(arrivals[l]) {
        assert arrivals[k].position != arrivals[l].position;
      }
    }
  }

  /** The vectors of an aligned answer. */
  lemma VectorsAreAligned<V>(data: seq<Entry<V>>, k: nat)
    requires Permutes(data) && k < |data|
    ensures var i := IndexOf(Enumerated(data)[k]);
            0 <= i < |Vectors(data)| && Vectors(data)[i] == data[k].embedding
  {
    PermutedIsAligned(data);
  }

  /** The same of what the entries themselves claim: when their indices are the positions, in any
      order, each embedding stands at its own index. */
  lemma ClaimsAreMet<V>(data: seq<Entry<V>>, k: nat)
    requires forall j | 0 <= j < |data| :: data[j].index.Some? && 0 <= data[j].index.value < |data|
    requires forall j, l | 0 <= j < l < |data| :: data[j].index != data[l].index
    requires k < |data|
    ensures |Vectors(data)| == |data| && Vectors(data)[data[k].index.value] == data[k].embedding
  {
    hide Sorted;
    SortedIsStable(Enumerated(data));
    forall j | 0 <= j < |data| ensures IndexOf(Enumerated(data)[j]) == data[j].index.value {
    }
    VectorsAreAligned(data, k);
  }

  /** Without any claimed index the order of arrival is kept. */
  lemma UnclaimedStaysPut<V>(data: seq<Entry<V>>)
    requires forall k | 0 <= k < |data| :: data[k].index.None?
    ensures Vectors(data) == seq(|data|, k requires 0 <= k < |data| => data[k].embedding)
  {
    hide Sorted;
    var arrivals := Enumerated(data);
    SortedIsStable(arrivals);
    OrderIsUnique(Sorted(arrivals), arrivals);
  }

  // ----- the call ------------------------------------------------------------------------------

  datatype Result<V> = Embedded(vectors: seq<V>, prompt: nat) | Unusable(prompt: nat)

  /** `generate_embedding`, from the reply on. None is a body that is not JSON; `accept` is the
      validation of the whole answer. */
  function Generate<V>(texts: nat, body: Option<(seq<Entry<V>>, nat)>,
                       accept: seq<Option<V>> -> Option<seq<V>>): Result<V> {
    match body
    case None => Unusable(0)
    case Some((data, prompt)) =>
      match accept(Vectors(data)) {
        case None => Unusable(prompt)
        case Some(vectors) => if |vectors| != texts then Unusable(prompt) else Embedded(vectors, prompt)
      }
  }

  /** Exactly when there are vectors, and which: the body is JSON, the validation accepts what stands
      in the order claimed, and there is one for each text. */
  lemma EmbeddedExactly<V(!new)>(texts: nat, body: Option<(seq<Entry<V>>, nat)>,
                                 accept: seq<Option<V>> -> Option<seq<V>>, vectors: seq<V>, prompt: nat)
    ensures Generate(texts, body, accept) == Embedded(vectors, prompt)
            <==> body.Some? && body.value.1 == prompt && accept(Vectors(body.value.0)) == Some(vectors)
                 && |vectors| == texts
    ensures Generate(texts, body, accept) == Unusable(prompt)
            <==> if body.None? then prompt == 0
                 else prompt == body.value.1 && !(exists good: seq<V> ::
                        accept(Vectors(body.value.0)) == Some(good) && |good| == texts)
  {
    if body.Some? && accept(Vectors(body.value.0)).Some? {
      var good := accept(Vectors(body.value.0)).value;
      assert accept(Vectors(body.value.0)) == Some(good);
    }
  }

  /** A validation that only checks: the vectors it accepts are the ones it was given. */
  ghost predicate Faithful<V(!new)>(accept: seq<Option<V>> -> Option<seq<V>>) {
    forall xs: seq<Option<V>> :: accept(xs).Some? ==>
      |accept(xs).value| == |xs| && forall i | 0 <= i < |xs| :: xs[i] == Some(accept(xs).value[i])
  }

  /** One vector for each text, the one that claimed its place, or no vectors at all; and the
      tokens of a reply that could be read are never lost. */
  lemma OneVectorEach<V(!new)>(texts: nat, data: seq<Entry<V>>, prompt: nat, accept: seq<Option<V>> -> Option<seq<V>>)
    requires Faithful(accept)
    ensures Generate(texts, Some((data, prompt)), accept).prompt == prompt
    ensures Generate(texts, Some((data, prompt)), accept).Embedded? ==>
              && |Generate(texts, Some((data, prompt)), accept).vectors| == texts == |data|
              && (Permutes(data) ==> forall k | 0 <= k < |data| ::
                    var i := IndexOf(Enumerated(data)[k]);
                    0 <= i < texts
                        && data[k].embedding == Some(Generate(texts, Some((data, prompt)), accept).vectors[i]))
  {
    hide Sorted;
    SortedIsStable(Enumerated(data));
    if Permutes(data) {
      forall k | 0 <= k < |data|
        ensures var i := IndexOf(Enumerated(data)[k]);
                0 <= i < |Vectors(data)| && Vectors(data)[i] == data[k].embedding
      {
        VectorsAreAligned(data, k);
      }
    }
  }
}
