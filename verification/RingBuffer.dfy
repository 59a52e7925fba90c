// Circular memories: position j of a stream lives in slot j mod n.

module RingBuffer {
  import opened Modular

  // The memory holds the last entries of the stream before position i.
  ghost predicate Ring<T>(mem: seq<T>, stream: seq<T>, i: nat) {
    && |mem| > 0 && i <= |stream|
    && forall j :: 0 <= j < i && i <= j + |mem| ==> mem[j % |mem|] == stream[j]
  }

  lemma RingNext<T>(mem: seq<T>, stream: seq<T>, i: nat)
    requires Ring(mem, stream, i) && i < |stream|
    ensures Ring(mem[i % |mem| := stream[i]], stream, i + 1)
  {
    var mem' := mem[i % |mem| := stream[i]];
    forall j | 0 <= j < i + 1 && i + 1 <= j + |mem'| ensures mem'[j % |mem'|] == stream[j] {
      if j < i { RingApart(j, i, |mem|); }
    }
  }

  // Positions less than n apart share no slot.
  lemma RingApart(j: nat, i: nat, n: nat)
    requires n > 0 && j < i < j + n
    ensures j % n != i % n
  {
    QuotientRemainder(j, n);
    QuotientRemainder(i, n);
    MultiplesApart(n, j / n, i / n);
  }

  lemma RingAppend<T>(mem: seq<T>, stream: seq<T>, x: T)
    requires Ring(mem, stream, |stream|)
    ensures Ring(mem[|stream| % |mem| := x], stream + [x], |stream| + 1)
  {
    assert Ring(mem, stream + [x], |stream|);
    RingNext(mem, stream + [x], |stream|);
  }
}
