/**
 `ChonkyBuff`, the queue that hands slices to an interrupt handler: chunks are appended by a
 producer and read by pops, which may interrupt it between any two of its critical
 sections.  A chunk is completed by the pop after the one that read its last element.
 */
module ChunkQueue {
  import opened Options

  /** `BufferChonk`, shared with the future that `push` returns. */
  class BufferChunk<T> {
    const data: seq<T>
    var completed: bool

    constructor (data: seq<T>, completed: bool)
      ensures this.data == data && this.completed == completed
    {
      this.data, this.completed := data, completed;
    }

    /** Polling the future of a push. */
    method Poll() returns (ready: bool)
      ensures ready == completed
    {
      ready := completed;
    }
  }

  /** The elements of the chunks in order. */
  function Flat<T>(cs: seq<BufferChunk<T>>): seq<T> {
    if cs == [] then [] else cs[0].data + Flat(cs[1..])
  }

  lemma {:induction false} FlatConcat<T>(a: seq<BufferChunk<T>>, b: seq<BufferChunk<T>>)
    ensures Flat(a + b) == Flat(a) + Flat(b)
  {
    if a == [] {
      assert a + b == b;
    } else {
      FlatConcat(a[1..], b);
      assert (a + b)[1..] == a[1..] + b;
    }
  }

  lemma FlatOne<T>(c: BufferChunk<T>)
    ensures Flat([c]) == c.data
  {
    assert [c][1..] == [];
  }

  lemma DropAppend<E>(s: seq<E>, t: seq<E>, k: nat)
    requires k <= |s|
    ensures (s + t)[k..] == s[k..] + t && (s + t)[..k] == s[..k]
  {
  }

  lemma NothingAppended<E>(s: seq<E>, t: seq<E>)
    requires |t| == 0
    ensures s + t == s
  {
  }

  lemma ConcatAssociative<E>(a: seq<E>, b: seq<E>, c: seq<E>)
    ensures a + b + c == a + (b + c)
  {
  }

  ghost predicate NoRepeats<T>(cs: seq<BufferChunk<T>>) {
    forall i, j :: 0 <= i < j < |cs| ==> cs[i] != cs[j]
  }

  lemma NoRepeatsMore<T>(cs: seq<BufferChunk<T>>, c: BufferChunk<T>)
    requires NoRepeats(cs) && c !in cs
    ensures NoRepeats(cs + [c])
  {
  }

  /** The chunks all[..done] are completed, all[freed..done] of them not yet freed; `offset`
      elements of the next chunk were read. */
  ghost predicate Accounts<T>(all: seq<BufferChunk<T>>, freed: nat, done: nat, offset: nat,
                              len: nat, invdLen: nat, adding: nat, popped: seq<T>) {
    && freed <= done <= |all|
    && offset <= (if done == |all| then 0 else |all[done].data|)
    && len == |Flat(all[done..])| + |Flat(all[freed..done])| + adding
    && invdLen == |Flat(all[freed..done])|
    && offset <= |Flat(all[done..])|
    && popped == Flat(all[..done]) + Flat(all[done..])[..offset]
  }

  /** The first pending chunk was read to its end. */
  lemma AccountsComplete<T>(all: seq<BufferChunk<T>>, freed: nat, done: nat,
                            len: nat, invdLen: nat, adding: nat, popped: seq<T>)
    requires done < |all| && Accounts(all, freed, done, |all[done].data|, len, invdLen, adding, popped)
    ensures Accounts(all, freed, done + 1, 0, len, invdLen + |all[done].data|, adding, popped)
    ensures Flat(all[done..])[|all[done].data|..] == Flat(all[done + 1..])
    ensures all[done..][..1] == [all[done]] && all[done..][1..] == all[done + 1..]
    ensures all[freed..done] + [all[done]] == all[freed..done + 1]
  {
    var c := all[done];
    FlatOne(c);
    assert all[done..] == [c] + all[done + 1..];
    FlatConcat([c], all[done + 1..]);
    assert all[freed..done + 1] == all[freed..done] + [c];
    FlatConcat(all[freed..done], [c]);
    assert all[..done + 1] == all[..done] + [c];
    FlatConcat(all[..done], [c]);
    assert Flat(all[done..])[..|c.data|] == c.data;
  }

  /** A chunk already counted is appended. */
  lemma AccountsAppend<T>(all: seq<BufferChunk<T>>, freed: nat, done: nat, offset: nat,
                          len: nat, invdLen: nat, popped: seq<T>, c: BufferChunk<T>)
    requires Accounts(all, freed, done, offset, len, invdLen, |c.data|, popped)
    ensures Accounts(all + [c], freed, done, offset, len, invdLen, 0, popped)
    ensures (all + [c])[done..] == all[done..] + [c] && (all + [c])[freed..done] == all[freed..done]
    ensures Flat(all[done..] + [c]) == Flat(all[done..]) + c.data
    ensures Flat(all[done..] + [c])[offset..] == Flat(all[done..])[offset..] + c.data
  {
    DropAppend(Flat(all[done..]), c.data, offset);
    FlatOne(c);
    FlatConcat(all[done..], [c]);
    var more := all + [c];
    assert more[done..] == all[done..] + [c] && more[freed..done] == all[freed..done];
    assert more[..done] == all[..done];
  }

  class ChunkBuffer<T> {
    var chonk: seq<BufferChunk<T>>        // pending chunks
    var comp: seq<BufferChunk<T>>         // completed chunks, not yet freed
    var offset: nat                       // how much of the first pending chunk was read
    var len: nat
    var invdLen: nat

    ghost var all: seq<BufferChunk<T>>    // every chunk appended so far
    ghost var freed: nat
    ghost var done: nat
    ghost var adding: nat                 // counted in `len` but not yet appended
    ghost var popped: seq<T>              // every element popped so far

    ghost predicate Valid()
      reads this, all
    {
      && Accounts(all, freed, done, offset, len, invdLen, adding, popped)
      && comp == all[freed..done] && chonk == all[done..]
      && NoRepeats(all)
      && (forall i :: 0 <= i < |all| ==> all[i].data != [] && (all[i].completed <==> i < done))
    }

    /** The flat queue. */
    ghost function Unread(): seq<T>
      requires Valid()
      reads this, all
    {
      Flat(chonk)[offset..]
    }

    constructor ()
      ensures Valid() && adding == 0 && all == [] && popped == []
    {
      chonk, comp, offset, len, invdLen := [], [], 0, 0, 0;
      all, freed, done, adding, popped := [], 0, 0, 0, [];
    }

    /** Whatever was pushed and not popped is in the queue, in order. */
    lemma Fifo()
      requires Valid()
      ensures Flat(all) == popped + Unread()
    {
      assert all == all[..done] + all[done..];
      FlatConcat(all[..done], all[done..]);
    }

    /** A future is ready exactly when its chunk is no longer pending, and then the chunk's
        elements are at their place among those popped. */
    lemma ReadyMeansRead(i: nat)
      requires Valid() && i < |all|
      ensures all[i].completed <==> all[i] !in chonk
      ensures all[i].completed ==>
                && |Flat(all[..i])| + |all[i].data| <= |popped|
                && popped[|Flat(all[..i])|..][..|all[i].data|] == all[i].data
    {
      if i < done {
        forall k | 0 <= k < |chonk| ensures chonk[k] != all[i] {
          assert chonk[k] == all[done + k];
        }
        assert all[..done] == all[..i] + ([all[i]] + all[i + 1..done]);
        FlatConcat(all[..i], [all[i]] + all[i + 1..done]);
        FlatConcat([all[i]], all[i + 1..done]);
        FlatOne(all[i]);
      } else {
        assert chonk[i - done] == all[i];
      }
    }

    /** `free`: forgets the completed chunks. */
    method Free()
      requires Valid()
      modifies this`comp, this`len, this`invdLen, this`freed
      ensures Valid() && comp == [] && invdLen == 0 && Unread() == old(Unread())
      ensures len == old(len) - old(invdLen) && freed == done
    {
      freed := done;
      comp := [];
      len := len - invdLen;
      invdLen := 0;
    }

    /** The first pending chunk is moved to the completed ones. */
    method CompleteFront()
      requires Valid() && chonk != [] && offset == |chonk[0].data|
      modifies this`chonk, this`comp, this`offset, this`invdLen, this`done, chonk
      ensures Valid() && offset == 0 && done == old(done) + 1 && Unread() == old(Unread())
      ensures invdLen == old(invdLen) + |old(chonk)[0].data| && chonk == old(chonk)[1..]
    {
      AccountsComplete(all, freed, done, len, invdLen, adding, popped);
      var bind, rest := chonk[..1], chonk[1..];
      bind[0].completed := true;
      chonk, comp := rest, comp + bind;
      invdLen, offset := invdLen + |bind[0].data|, 0;
      done := done + 1;
    }

    /** Reads the next element of the first pending chunk. */
    method ReadFront() returns (x: T)
      requires Valid() && chonk != [] && offset < |chonk[0].data|
      modifies this`offset, this`popped
      ensures Valid() && old(Unread()) == [x] + Unread() && popped == old(popped) + [x]
      ensures offset == old(offset) + 1 && x == chonk[0].data[old(offset)]
    {
      FlatConcat([chonk[0]], chonk[1..]);
      FlatOne(chonk[0]);
      assert chonk == [chonk[0]] + chonk[1..];
      x := chonk[0].data[offset];
      assert x == Flat(chonk)[offset];
      offset := offset + 1;
      popped := popped + [x];
    }

    /** `pop`: the flat queue's first element, or nothing exactly when that queue is empty.
        The chunk it reads is never a completed one. */
    method Pop() returns (r: Option<T>)
      requires Valid()
      modifies this`chonk, this`comp, this`offset, this`invdLen, this`done, this`popped, chonk
      ensures Valid() && old(done) <= done && old(invdLen) <= invdLen
      ensures r.None? <==> old(Unread()) == []
      ensures r.None? ==> Unread() == [] && popped == old(popped)
      ensures r.Some? ==> old(Unread()) == [r.value] + Unread() && popped == old(popped) + [r.value]
      ensures r.Some? ==> chonk != [] && !chonk[0].completed && 0 < offset <= |chonk[0].data|
                          && r.value == chonk[0].data[offset - 1]
    {
      if chonk == [] {
        return None;
      }
      if offset == |chonk[0].data| {
        CompleteFront();
        if chonk == [] {
          return None;
        }
      }
      assert chonk[0] == all[done];
      var x := ReadFront();
      r := Some(x);
    }

    /** `peek`: nothing is moved, whatever its description says, because the list is split
        before its first chunk.  It finds the element the next pop returns unless the first
        pending chunk was read to its end. */
    method Peek() returns (r: Option<T>)
      requires Valid()
      modifies this`chonk, this`comp
      ensures Valid() && chonk == old(chonk) && comp == old(comp)
      ensures r.Some? ==> Unread() != [] && r.value == Unread()[0] && !chonk[0].completed
      ensures r.None? && Unread() != [] <==> |chonk| > 1 && offset == |chonk[0].data|
    {
      if chonk == [] {
        return None;
      }
      FlatConcat([chonk[0]], chonk[1..]);
      FlatOne(chonk[0]);
      assert chonk == [chonk[0]] + chonk[1..];
      assert chonk[0] == all[done];
      if offset < |chonk[0].data| {
        return Some(chonk[0].data[offset]);
      }
      if |chonk| > 1 {
        assert chonk[1..][0] == all[done + 1];
      }
      var bind, rest := chonk[0..], chonk[..0];
      bind, rest := rest, bind;
      chonk := rest;
      comp := comp + bind;
      assert bind == [];
      r := None;
    }

    /** An interrupt handler pops any number of elements. */
    method Interrupt(k: nat) returns (taken: seq<T>)
      requires Valid()
      modifies this`chonk, this`comp, this`offset, this`invdLen, this`done, this`popped, chonk
      ensures Valid() && old(done) <= done && old(invdLen) <= invdLen
      ensures old(Unread()) == taken + Unread() && popped == old(popped) + taken
      ensures |taken| <= k && (|taken| < k ==> Unread() == [])
    {
      taken := [];
      for i := 0 to k
        invariant Valid() && old(done) <= done && old(invdLen) <= invdLen
        invariant forall c :: c in chonk ==> c in old(chonk)
        invariant old(Unread()) == taken + Unread() && popped == old(popped) + taken
        invariant |taken| <= i && (|taken| < i ==> Unread() == [])
      {
        var x := Pop();
        if x.Some? {
          ConcatAssociative(taken, [x.value], Unread());
          ConcatAssociative(old(popped), taken, [x.value]);
          taken := taken + [x.value];
        }
      }
    }

    method Append(chunk: BufferChunk<T>)
      requires Valid() && chunk.data != [] && adding == |chunk.data| && !chunk.completed && chunk !in all
      modifies this`chonk, this`all, this`adding
      ensures Valid() && adding == 0 && all == old(all) + [chunk]
      ensures Unread() == old(Unread()) + chunk.data
    {
      AccountsAppend(all, freed, done, offset, len, invdLen, popped, chunk);
      NoRepeatsMore(all, chunk);
      chonk := chonk + [chunk];
      all := all + [chunk];
      adding := 0;
    }

    /** The length is counted before the chunk is in the list. */
    method Count(n: nat)
      requires Valid() && adding == 0
      modifies this`len, this`adding
      ensures Valid() && adding == n && Unread() == old(Unread())
    {
      len := len + n;
      adding := n;
    }

    /** The last part of `push`, interrupted before the chunk is in the list. */
    method Enqueue(chunk: BufferChunk<T>, m: nat) returns (taken: seq<T>)
      requires Valid() && adding == 0 && chunk.data != [] && !chunk.completed && chunk !in all
      modifies this, chonk
      ensures Valid() && adding == 0 && !chunk.completed && all == old(all) + [chunk]
      ensures old(Unread()) + chunk.data == taken + Unread() && popped == old(popped) + taken
      ensures old(done) <= done && freed == old(freed)
    {
      Count(|chunk.data|);
      taken := Interrupt(m);
      ConcatAssociative(taken, Unread(), chunk.data);
      Append(chunk);
    }

    /** The first part of `push`, interrupted after its critical section. */
    method Release(k: nat) returns (taken: seq<T>)
      requires Valid()
      modifies this`chonk, this`comp, this`offset, this`len, this`invdLen, this`freed, this`done,
               this`popped, chonk
      ensures Valid() && old(done) <= done && freed == old(done)
      ensures old(Unread()) == taken + Unread() && popped == old(popped) + taken
    {
      Free();
      taken := Interrupt(k);
    }

    /** The parts of `push` after its first allocation, for a slice that is not empty. */
    method PushChunk(chunk: BufferChunk<T>, k: nat, m: nat) returns (taken: seq<T>)
      requires Valid() && adding == 0 && chunk.data != [] && !chunk.completed && chunk !in all
      modifies this, chonk
      ensures Valid() && adding == 0 && !chunk.completed && all == old(all) + [chunk]
      ensures old(Unread()) + chunk.data == taken + Unread() && popped == old(popped) + taken
      ensures old(done) <= done && freed == old(done)
    {
      var first := Release(k);
      ConcatAssociative(first, Unread(), chunk.data);
      var more := Enqueue(chunk, m);
      ConcatAssociative(first, more, Unread());
      ConcatAssociative(old(popped), first, more);
      taken := first + more;
    }

    /** `push`, with an interrupt after each of its critical sections.  The chunks that were
        complete when it began are freed.  A push of nothing is completed at once and not
        queued. */
    method Push(data: seq<T>, k: nat, m: nat) returns (chunk: BufferChunk<T>, taken: seq<T>)
      requires Valid() && adding == 0
      modifies this, chonk
      ensures Valid() && adding == 0 && fresh(chunk) && chunk.data == data
      ensures old(Unread()) + data == taken + Unread() && popped == old(popped) + taken
      ensures old(done) <= done && freed == old(done)
      ensures data == [] ==> chunk.completed && all == old(all)
      ensures data != [] ==> !chunk.completed && all == old(all) + [chunk]
    {
      chunk := new BufferChunk(data, false);
      if data == [] {
        NothingAppended(Unread(), data);
        taken := Release(k);
        chunk := new BufferChunk([], true);
      } else {
        taken := PushChunk(chunk, k, m);
      }
    }

    /** `len`: what is pending and what is completed but not freed. */
    method Len() returns (n: nat)
      requires Valid() && adding == 0
      ensures n == |Flat(chonk)| + |Flat(comp)|
    {
      n := len;
    }

    /** `valid_len`, with an interrupt between its two loads: the subtraction never wraps. */
    method ValidLen(k: nat) returns (n: int)
      requires Valid() && adding == 0
      modifies this`chonk, this`comp, this`offset, this`invdLen, this`done, this`popped, chonk
      ensures Valid() && 0 <= n && n == |Flat(chonk)|
    {
      var l := len;
      var _ := Interrupt(k);
      n := l - invdLen;
    }
  }
}
