/** Reading the same thing several times over, for any reader: the shape of the
    index path in Confluent's framing and of the arrays in Kafka's. */
module Repeat {
  import opened Varint

  /** A value at the front of some bytes, and how many of them it took. */
  datatype Read<+T> = Failed | Got(value: T, used: nat)

  type Reader<!T> = seq<byte> -> Read<T>
  type Writer<!T> = T -> seq<byte>

  function ReadMany<T>(read: Reader<T>, bytes: seq<byte>, count: nat): (r: Read<seq<T>>)
    ensures r.Got? ==> |r.value| == count && r.used <= |bytes|
    decreases count
  {
    if count == 0 then Got([], 0)
    else
      match read(bytes)
      case Failed => Failed
      case Got(v, used) =>
        if used > |bytes| then Failed
        else
          match ReadMany(read, bytes[used..], count - 1)
          case Failed => Failed
          case Got(rest, more) => Got([v] + rest, used + more)
  }

  function WriteMany<T>(write: Writer<T>, vs: seq<T>): seq<byte> {
    if vs == [] then [] else write(vs[0]) + WriteMany(write, vs[1..])
  }

  /** What is read back is what was written, whatever follows it. */
  ghost predicate ReadsBack<T>(read: Reader<T>, write: Writer<T>, v: T) {
    forall rest :: read(write(v) + rest) == Got(v, |write(v)|)
  }

  /** Nothing is read from a piece of what was written. */
  ghost predicate RejectsPieces<T>(read: Reader<T>, write: Writer<T>, v: T) {
    forall k :: 0 <= k < |write(v)| ==> read(write(v)[..k]) == Failed
  }

  /** The values read so far, followed by the rest of them. */
  function Continue<T>(vs: seq<T>, used: nat, rest: Read<seq<T>>): Read<seq<T>> {
    match rest
    case Failed => Failed
    case Got(more, bytes) => Got(vs + more, used + bytes)
  }

  lemma ContinueFromNothing<T>(rest: Read<seq<T>>)
    ensures Continue([], 0, rest) == rest
  {
    if rest.Got? {
      assert [] + rest.value == rest.value;
    }
  }

  lemma ContinueToEnd<T>(vs: seq<T>, used: nat, read: Reader<T>, bytes: seq<byte>)
    ensures Continue(vs, used, ReadMany(read, bytes, 0)) == Got(vs, used)
  {
    assert vs + [] == vs;
  }

  /** One pass of a loop that still has `count` values to read from `tail`. */
  lemma ContinueStep<T>(read: Reader<T>, vs: seq<T>, used: nat, tail: seq<byte>, count: nat)
    requires count > 0
    ensures Continue(vs, used, ReadMany(read, tail, count))
         == match read(tail)
            case Failed => Failed
            case Got(v, n) =>
              if n > |tail| then Failed else Continue(vs + [v], used + n, ReadMany(read, tail[n..], count - 1))
  {
    if read(tail).Got? && read(tail).used <= |tail| {
      var Got(v, n) := read(tail);
      var rest := ReadMany(read, tail[n..], count - 1);
      if rest.Got? {
        assert vs + ([v] + rest.value) == (vs + [v]) + rest.value;
      }
    }
  }

  /** A loop has read `vs` so far, and what is left of `tail` decides the rest. */
  ghost predicate Underway<T>(read: Reader<T>, whole: Read<seq<T>>, vs: seq<T>, used: nat,
                              tail: seq<byte>, left: nat)
  {
    whole == Continue(vs, used, ReadMany(read, tail, left))
  }

  lemma UnderwayFromStart<T>(read: Reader<T>, bytes: seq<byte>, count: nat)
    ensures Underway(read, ReadMany(read, bytes, count), [], 0, bytes, count)
  {
    ContinueFromNothing(ReadMany(read, bytes, count));
  }

  lemma UnderwayStep<T>(read: Reader<T>, whole: Read<seq<T>>, vs: seq<T>, used: nat, tail: seq<byte>, left: nat,
                        next: Read<T>, vs': seq<T>, used': nat, tail': seq<byte>, left': nat)
    requires Underway(read, whole, vs, used, tail, left) && left > 0
    requires next == read(tail) && next.Got? && next.used <= |tail|
    requires vs' == vs + [next.value] && used' == used + next.used && tail' == tail[next.used..] && left' == left - 1
    ensures Underway(read, whole, vs', used', tail', left')
  {
    ContinueStep(read, vs, used, tail, left);
  }

  lemma UnderwayStuck<T>(read: Reader<T>, whole: Read<seq<T>>, vs: seq<T>, used: nat,
                         tail: seq<byte>, left: nat)
    requires Underway(read, whole, vs, used, tail, left) && left > 0 && read(tail) == Failed
    ensures whole == Failed
  {
  }

  lemma UnderwayDone<T>(read: Reader<T>, whole: Read<seq<T>>, vs: seq<T>, used: nat, tail: seq<byte>)
    requires Underway(read, whole, vs, used, tail, 0)
    ensures whole == Got(vs, used)
  {
    ContinueToEnd(vs, used, read, tail);
  }

  /** The loop both parsers run: read, advance, push, until `count` values are
      in or one cannot be read. */
  method ReadInLoop<T>(read: Reader<T>, bytes: seq<byte>, count: nat) returns (r: Read<seq<T>>)
    ensures r == ReadMany(read, bytes, count)
  {
    var tail, i := bytes, 0;
    var used: nat := 0;
    var vs: seq<T> := [];
    ContinueFromNothing(ReadMany(read, bytes, count));
    while i < count
      invariant 0 <= i <= count
      invariant ReadMany(read, bytes, count) == Continue(vs, used, ReadMany(read, tail, count - i))
    {
      ContinueStep(read, vs, used, tail, count - i);
      var next := read(tail);
      if next.Failed? || next.used > |tail| {
        return Failed;
      }
      tail := tail[next.used..];
      used := used + next.used;
      vs := vs + [next.value];
      i := i + 1;
    }
    ContinueToEnd(vs, used, read, tail);
    return Got(vs, used);
  }

  lemma ReadOneMore<T>(read: Reader<T>, head: seq<byte>, v: T, tail: seq<byte>, vs: seq<T>, used: nat)
    requires read(head + tail) == Got(v, |head|) && ReadMany(read, tail, |vs|) == Got(vs, used)
    ensures ReadMany(read, head + tail, |vs| + 1) == Got([v] + vs, |head| + used)
  {
    assert (head + tail)[|head|..] == tail;
  }

  lemma {:induction false} ManyRoundTrip<T>(read: Reader<T>, write: Writer<T>, vs: seq<T>, rest: seq<byte>)
    requires forall v :: v in vs ==> ReadsBack(read, write, v)
    ensures ReadMany(read, WriteMany(write, vs) + rest, |vs|) == Got(vs, |WriteMany(write, vs)|)
  {
    if vs != [] {
      var head, tail := write(vs[0]), WriteMany(write, vs[1..]);
      ManyRoundTrip(read, write, vs[1..], rest);
      assert WriteMany(write, vs) + rest == head + (tail + rest);
      assert ReadsBack(read, write, vs[0]);
      ReadOneMore(read, head, vs[0], tail + rest, vs[1..], |tail|);
      assert vs == [vs[0]] + vs[1..];
    }
  }

  lemma ContinueTwice<T>(a: seq<T>, m: nat, b: seq<T>, n: nat, rest: Read<seq<T>>)
    ensures Continue(a, m, Continue(b, n, rest)) == Continue(a + b, m + n, rest)
  {
    if rest.Got? {
      assert a + (b + rest.value) == (a + b) + rest.value;
    }
  }

  /** One value in front of some that are read before the rest. */
  lemma OneBefore<T>(read: Reader<T>, head: seq<byte>, v: T, tail: seq<byte>, count: nat, vs: seq<T>, used: nat,
                     rest: Read<seq<T>>)
    requires read(head + tail) == Got(v, |head|) && ReadMany(read, tail, count) == Continue(vs, used, rest)
    ensures ReadMany(read, head + tail, count + 1) == Continue([v] + vs, |head| + used, rest)
  {
    assert (head + tail)[|head|..] == tail;
    ContinueTwice([v], |head|, vs, used, rest);
  }

  lemma BackAt<T>(read: Reader<T>, write: Writer<T>, v: T, rest: seq<byte>)
    requires ReadsBack(read, write, v)
    ensures read(write(v) + rest) == Got(v, |write(v)|)
  {
  }

  lemma Regrouped<T>(whole: seq<T>, a: seq<T>, b: seq<T>, c: seq<T>)
    requires whole == a + b
    ensures whole + c == a + (b + c) && |whole| == |a| + |b|
  {
  }

  /** What was written is read back, and then whatever else is there. */
  lemma {:induction false} ManyThen<T>(read: Reader<T>, write: Writer<T>, vs: seq<T>, rest: seq<byte>, more: nat)
    requires forall v :: v in vs ==> ReadsBack(read, write, v)
    ensures ReadMany(read, WriteMany(write, vs) + rest, |vs| + more)
            == Continue(vs, |WriteMany(write, vs)|, ReadMany(read, rest, more))
  {
    if vs == [] {
      assert WriteMany(write, vs) + rest == rest;
      ContinueFromNothing(ReadMany(read, rest, more));
    } else {
      var others := vs[1..];
      var tail := WriteMany(write, others);
      ManyThen(read, write, others, rest, more);
      BackAt(read, write, vs[0], tail + rest);
      OneBefore(read, write(vs[0]), vs[0], tail + rest, |others| + more, others, |tail|, ReadMany(read, rest, more));
      Regrouped(WriteMany(write, vs), write(vs[0]), tail, rest);
      assert vs == [vs[0]] + others;
    }
  }

  /** Cutting a written list short anywhere makes it unreadable. */
  lemma {:induction false} ManyRejectsPieces<T>(read: Reader<T>, write: Writer<T>, vs: seq<T>, k: nat)
    requires forall v :: v in vs ==> ReadsBack(read, write, v) && RejectsPieces(read, write, v)
    requires k < |WriteMany(write, vs)|
    ensures ReadMany(read, WriteMany(write, vs)[..k], |vs|) == Failed
  {
    var head, tail := write(vs[0]), WriteMany(write, vs[1..]);
    var piece := WriteMany(write, vs)[..k];
    assert vs[0] in vs;
    if k < |head| {
      assert piece == head[..k];
    } else {
      assert piece == head + tail[..k - |head|];
      assert piece[|head|..] == tail[..k - |head|];
      ManyRejectsPieces(read, write, vs[1..], k - |head|);
    }
  }
}
