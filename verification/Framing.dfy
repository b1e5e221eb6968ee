/**
 Taking frames off the front of a growing buffer.

 Both packet protocols in this library read a byte stream the same way: append
 what arrived, take whole frames off the front until none is left, keep the rest.
 What makes that independent of how the stream was cut is one property of the
 function that takes a frame - more bytes behind a frame never change it.
 */
module Framing {
  import opened Bytes

  datatype Taken<+T> =
    | Incomplete
    | Invalid
    | Frame(value: T, size: nat)

  /** A frame that was found stays found, and stays the same, when more arrives. */
  ghost predicate Stable<T(!new)>(take: seq<Byte> -> Taken<T>)
  {
    && (forall b :: take(b).Frame? ==> 0 < take(b).size <= |b|)
    && (forall b, x {:trigger take(b + x)} :: take(b).Frame? ==> take(b + x) == take(b))
    && (forall b, x {:trigger take(b + x)} :: take(b).Invalid? ==> take(b + x).Invalid?)
  }

  /** What a stream holds: the whole frames at its front, and what is left behind them. */
  datatype Drained<+T> = Drained(frames: seq<T>, rest: seq<Byte>)

  function TakeAll<T>(take: seq<Byte> -> Taken<T>, buffer: seq<Byte>): (d: Drained<T>)
    ensures |d.rest| <= |buffer|
    decreases |buffer|
  {
    match take(buffer)
    case Frame(v, n) =>
      if 0 < n <= |buffer| then
        var d := TakeAll(take, buffer[n..]);
        Drained([v] + d.frames, d.rest)
      else Drained([], buffer)
    case _ => Drained([], buffer)
  }

  lemma {:induction false} NothingWholeIsLeft<T(!new)>(take: seq<Byte> -> Taken<T>, buffer: seq<Byte>)
    requires Stable(take)
    ensures !take(TakeAll(take, buffer).rest).Frame?
    decreases |buffer|
  {
    match take(buffer)
    case Frame(v, n) => NothingWholeIsLeft(take, buffer[n..]);
    case _ =>
  }

  /** The receive loop over a list of arrivals: append, then take what is whole. */
  function Receive<T>(take: seq<Byte> -> Taken<T>, rest: seq<Byte>, pieces: seq<seq<Byte>>): Drained<T>
    decreases |pieces|
  {
    if pieces == [] then Drained([], rest)
    else
      var d := TakeAll(take, rest + pieces[0]);
      var e := Receive(take, d.rest, pieces[1..]);
      Drained(d.frames + e.frames, e.rest)
  }

  /** Every arrival fits behind what was left over from the ones before it. */
  predicate WithinLimit<T>(take: seq<Byte> -> Taken<T>, rest: seq<Byte>, pieces: seq<seq<Byte>>, limit: nat)
    decreases |pieces|
  {
    pieces == [] ||
    (|rest| + |pieces[0]| <= limit &&
     WithinLimit(take, TakeAll(take, rest + pieces[0]).rest, pieces[1..], limit))
  }

  lemma StableHere<T(!new)>(take: seq<Byte> -> Taken<T>, a: seq<Byte>, b: seq<Byte>)
    requires Stable(take)
    ensures take(a).Frame? ==> take(a + b) == take(a) && 0 < take(a).size <= |a|
  {
  }

  /** Draining early and then again is the same as draining once. */
  lemma {:induction false} TakeAllExtends<T(!new)>(take: seq<Byte> -> Taken<T>, a: seq<Byte>, b: seq<Byte>)
    requires Stable(take)
    ensures
      var d := TakeAll(take, a);
      var e := TakeAll(take, d.rest + b);
      TakeAll(take, a + b) == Drained(d.frames + e.frames, e.rest)
    decreases |a|
  {
    hide Stable;
    StableHere(take, a, b);
    match take(a)
    case Frame(v, n) =>
      assert (a + b)[n..] == a[n..] + b;
      TakeAllExtends(take, a[n..], b);
      var d := TakeAll(take, a[n..]);
      var e := TakeAll(take, d.rest + b);
      assert [v] + (d.frames + e.frames) == ([v] + d.frames) + e.frames;
    case _ =>
      var e := TakeAll(take, a + b);
      assert [] + e.frames == e.frames;
  }

  /** However a stream is cut, the frames and the leftover are those of the whole stream. */
  lemma {:induction false} SplitInvariance<T(!new)>(take: seq<Byte> -> Taken<T>, rest: seq<Byte>, pieces: seq<seq<Byte>>)
    requires Stable(take)
    requires !take(rest).Frame?
    ensures Receive(take, rest, pieces) == TakeAll(take, rest + Flatten(pieces))
    decreases |pieces|
  {
    if pieces == [] {
      assert rest + [] == rest;
    } else {
      var whole := rest + pieces[0];
      var d := TakeAll(take, whole);
      NothingWholeIsLeft(take, whole);
      ConcatAssoc(rest, pieces[0], Flatten(pieces[1..]));
      TakeAllExtends(take, whole, Flatten(pieces[1..]));
      SplitInvariance(take, d.rest, pieces[1..]);
    }
  }

  /** `wire[i]` is recognised as `frames[i]`, whatever follows it. */
  ghost predicate Encodes<T(!new)>(take: seq<Byte> -> Taken<T>, wire: seq<seq<Byte>>, frames: seq<T>)
  {
    && |wire| == |frames|
    && forall i, x {:trigger take(wire[i] + x)} :: 0 <= i < |wire| ==> take(wire[i] + x) == Frame(frames[i], |wire[i]|)
  }

  /** A stream of encoded frames with an unfinished tail is taken apart into exactly those frames. */
  lemma {:induction false} TakeAllEncoded<T(!new)>(take: seq<Byte> -> Taken<T>, wire: seq<seq<Byte>>, frames: seq<T>, tail: seq<Byte>)
    requires Stable(take) && Encodes(take, wire, frames)
    requires !take(tail).Frame?
    ensures TakeAll(take, Flatten(wire) + tail) == Drained(frames, tail)
    decreases |wire|
  {
    if wire == [] {
      assert Flatten(wire) + tail == tail;
    } else {
      var stream := Flatten(wire) + tail;
      var behind := Flatten(wire[1..]) + tail;
      assert stream == wire[0] + behind;
      assert take(stream) == Frame(frames[0], |wire[0]|);
      assert stream[|wire[0]|..] == behind;
      forall i, x | 0 <= i < |wire[1..]| ensures take(wire[1..][i] + x) == Frame(frames[1..][i], |wire[1..][i]|) {
        assert take(wire[i + 1] + x) == Frame(frames[i + 1], |wire[i + 1]|);
      }
      TakeAllEncoded(take, wire[1..], frames[1..], tail);
      assert [frames[0]] + frames[1..] == frames;
    }
  }
}
