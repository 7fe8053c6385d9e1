/**
 * The blob a task is stored as (`Task.blob` / `Task.from_blob` in
 * chronos/task.py). The byte layout is this model's own, not pickle's: every
 * field of the task in order, naturals as little-endian base-128 varints,
 * integers zig-zag mapped to naturals, strings and parameter lists prefixed
 * with their length, characters as their code points, and a tag byte in
 * front of each parameter value and of the optional interval.
 */
module Codec {
  import opened Wrappers
  import opened Records

  newtype byte = x: int | 0 <= x < 256

  type Blob = seq<byte>

  // ---- naturals ----

  function EncodeNat(n: nat): (r: Blob)
    ensures |r| > 0
  {
    if n < 128 then [n as byte] else [(128 + n % 128) as byte] + EncodeNat(n / 128)
  }

  function DecodeNat(s: Blob): Option<(nat, Blob)>
  {
    if |s| == 0 then None
    else if s[0] < 128 then Some((s[0] as nat, s[1..]))
    else
      var (m, rest) :- DecodeNat(s[1..]);
      Some(((s[0] as nat - 128) + 128 * m, rest))
  }

  lemma {:induction false} NatRoundTrip(n: nat, rest: Blob)
    ensures DecodeNat(EncodeNat(n) + rest) == Some((n, rest))
  {
    if n >= 128 {
      var e := EncodeNat(n) + rest;
      assert e == [(128 + n % 128) as byte] + (EncodeNat(n / 128) + rest);
      assert e[1..] == EncodeNat(n / 128) + rest;
      NatRoundTrip(n / 128, rest);
    }
  }

  // ---- integers ----

  function ZigZag(i: int): nat {
    if i >= 0 then 2 * i else -2 * i - 1
  }

  function UnZigZag(n: nat): int {
    if n % 2 == 0 then n / 2 else -((n + 1) / 2)
  }

  function EncodeInt(i: int): Blob {
    EncodeNat(ZigZag(i))
  }

  function DecodeInt(s: Blob): Option<(int, Blob)> {
    var (n, rest) :- DecodeNat(s);
    Some((UnZigZag(n), rest))
  }

  lemma IntRoundTrip(i: int, rest: Blob)
    ensures DecodeInt(EncodeInt(i) + rest) == Some((i, rest))
  {
    NatRoundTrip(ZigZag(i), rest);
  }

  // ---- booleans ----

  function EncodeBool(b: bool): Blob {
    if b then [1] else [0]
  }

  function DecodeBool(s: Blob): Option<(bool, Blob)> {
    if |s| == 0 || s[0] > 1 then None else Some((s[0] == 1, s[1..]))
  }

  lemma BoolRoundTrip(b: bool, rest: Blob)
    ensures DecodeBool(EncodeBool(b) + rest) == Some((b, rest))
  {
    assert (EncodeBool(b) + rest)[1..] == rest;
  }

  // ---- strings ----

  /** The code points a `char` can hold: the Unicode scalar values. */
  predicate IsScalar(n: int) {
    0 <= n < 0xD800 || 0xE000 <= n < 0x11_0000
  }

  function EncodeChars(s: string): Blob {
    if s == [] then [] else EncodeNat(s[0] as int) + EncodeChars(s[1..])
  }

  function DecodeChars(count: nat, s: Blob): Option<(string, Blob)> {
    if count == 0 then Some(([], s))
    else
      var (n, rest) :- DecodeNat(s);
      if !IsScalar(n) then None
      else
        var (tail, rest') :- DecodeChars(count - 1, rest);
        Some(([n as char] + tail, rest'))
  }

  lemma {:induction false} CharsRoundTrip(s: string, rest: Blob)
    ensures DecodeChars(|s|, EncodeChars(s) + rest) == Some((s, rest))
  {
    if s != [] {
      var e := EncodeChars(s) + rest;
      var tailBytes := EncodeChars(s[1..]) + rest;
      assert e == EncodeNat(s[0] as int) + tailBytes;
      NatRoundTrip(s[0] as int, tailBytes);
      assert DecodeNat(e) == Some((s[0] as int as nat, tailBytes));
      assert IsScalar(s[0] as int) && (s[0] as int) as char == s[0];
      CharsRoundTrip(s[1..], rest);
      assert DecodeChars(|s| - 1, tailBytes) == Some((s[1..], rest));
      assert DecodeChars(|s|, e) == Some(([s[0]] + s[1..], rest));
      assert [s[0]] + s[1..] == s;
    } else {
      assert EncodeChars(s) + rest == rest;
    }
  }

  function EncodeStr(s: string): Blob {
    EncodeNat(|s|) + EncodeChars(s)
  }

  function DecodeStr(s: Blob): Option<(string, Blob)> {
    var (count, rest) :- DecodeNat(s);
    DecodeChars(count, rest)
  }

  lemma StrRoundTrip(s: string, rest: Blob)
    ensures DecodeStr(EncodeStr(s) + rest) == Some((s, rest))
  {
    assert EncodeStr(s) + rest == EncodeNat(|s|) + (EncodeChars(s) + rest);
    NatRoundTrip(|s|, EncodeChars(s) + rest);
    CharsRoundTrip(s, rest);
  }

  // ---- parameter values ----

  /** A value is its tag byte followed by its payload. */
  function EncodeValue(v: Value): Blob {
    [TagOf(v)] + EncodePayload(v)
  }

  function TagOf(v: Value): byte {
    match v
    case NoneValue => 0
    case BoolValue(_) => 1
    case IntValue(_) => 2
    case StrValue(_) => 3
  }

  function EncodePayload(v: Value): Blob {
    match v
    case NoneValue => []
    case BoolValue(b) => EncodeBool(b)
    case IntValue(i) => EncodeInt(i)
    case StrValue(s) => EncodeStr(s)
  }

  function DecodeValue(s: Blob): Option<(Value, Blob)> {
    if |s| == 0 then None else DecodePayload(s[0], s[1..])
  }

  /** The value whose tag byte is `tag` and whose payload starts `s`. */
  function DecodePayload(tag: byte, s: Blob): Option<(Value, Blob)> {
    if tag == 0 then Some((NoneValue, s))
    else if tag == 1 then var (b, rest) :- DecodeBool(s); Some((BoolValue(b), rest))
    else if tag == 2 then var (i, rest) :- DecodeInt(s); Some((IntValue(i), rest))
    else if tag == 3 then var (t, rest) :- DecodeStr(s); Some((StrValue(t), rest))
    else None
  }

  lemma PayloadRoundTrip(v: Value, rest: Blob)
    ensures DecodePayload(TagOf(v), EncodePayload(v) + rest) == Some((v, rest))
  {
    match v
    case NoneValue =>
      assert EncodePayload(v) + rest == rest;
    case BoolValue(b) => BoolRoundTrip(b, rest);
    case IntValue(i) => IntRoundTrip(i, rest);
    case StrValue(t) => StrRoundTrip(t, rest);
  }

  lemma ValueRoundTrip(v: Value, rest: Blob)
    ensures DecodeValue(EncodeValue(v) + rest) == Some((v, rest))
  {
    var e := EncodeValue(v) + rest;
    assert e[0] == TagOf(v) && e[1..] == EncodePayload(v) + rest;
    PayloadRoundTrip(v, rest);
  }

  function EncodeValues(vs: seq<Value>): Blob {
    if vs == [] then [] else EncodeValue(vs[0]) + EncodeValues(vs[1..])
  }

  function DecodeValues(count: nat, s: Blob): Option<(seq<Value>, Blob)> {
    if count == 0 then Some(([], s))
    else
      var (v, rest) :- DecodeValue(s);
      var (tail, rest') :- DecodeValues(count - 1, rest);
      Some(([v] + tail, rest'))
  }

  lemma {:induction false} ValuesRoundTrip(vs: seq<Value>, rest: Blob)
    ensures DecodeValues(|vs|, EncodeValues(vs) + rest) == Some((vs, rest))
  {
    if vs != [] {
      var tailBytes := EncodeValues(vs[1..]) + rest;
      assert EncodeValues(vs) + rest == EncodeValue(vs[0]) + tailBytes;
      ValueRoundTrip(vs[0], tailBytes);
      ValuesRoundTrip(vs[1..], rest);
      assert |vs[1..]| == |vs| - 1;
      assert [vs[0]] + vs[1..] == vs;
    } else {
      assert EncodeValues(vs) + rest == rest;
    }
  }

  function EncodeParams(ps: seq<Value>): Blob {
    EncodeNat(|ps|) + EncodeValues(ps)
  }

  function DecodeParams(s: Blob): Option<(seq<Value>, Blob)> {
    var (count, rest) :- DecodeNat(s);
    DecodeValues(count, rest)
  }

  lemma ParamsRoundTrip(ps: seq<Value>, rest: Blob)
    ensures DecodeParams(EncodeParams(ps) + rest) == Some((ps, rest))
  {
    assert EncodeParams(ps) + rest == EncodeNat(|ps|) + (EncodeValues(ps) + rest);
    NatRoundTrip(|ps|, EncodeValues(ps) + rest);
    ValuesRoundTrip(ps, rest);
  }

  // ---- the optional interval ----

  function EncodeInterval(o: Option<int>): Blob {
    match o
    case None => [0]
    case Some(i) => [1] + EncodeInt(i)
  }

  function DecodeInterval(s: Blob): Option<(Option<int>, Blob)> {
    if |s| == 0 then None
    else if s[0] == 0 then Some((None, s[1..]))
    else if s[0] == 1 then var (i, rest) :- DecodeInt(s[1..]); Some((Some(i), rest))
    else None
  }

  lemma IntervalRoundTrip(o: Option<int>, rest: Blob)
    ensures DecodeInterval(EncodeInterval(o) + rest) == Some((o, rest))
  {
    var e := EncodeInterval(o) + rest;
    match o
    case None =>
      assert e[1..] == rest;
    case Some(i) =>
      assert e[1..] == EncodeInt(i) + rest;
      IntRoundTrip(i, rest);
  }

  // ---- the whole task ----

  /** `Task.blob`: every field of the task, in declaration order. */
  function EncodeTask(d: TaskData): Blob {
    EncodeStr(d.id) + (EncodeStr(d.func) + (EncodeParams(d.params)
      + (EncodeInt(d.nextRun) + (EncodeInterval(d.intervalSeconds) + EncodeBool(d.runMissed)))))
  }

  /** `Task.from_blob`: `None` stands for the unpickling error; trailing bytes are rejected. */
  function DecodeTask(s: Blob): Option<TaskData> {
    var (id, s1) :- DecodeStr(s);
    var (func, s2) :- DecodeStr(s1);
    var (params, s3) :- DecodeParams(s2);
    var (nextRun, s4) :- DecodeInt(s3);
    var (interval, s5) :- DecodeInterval(s4);
    var (runMissed, s6) :- DecodeBool(s5);
    if s6 != [] then None else Some(TaskData(id, func, params, nextRun, interval, runMissed))
  }

  /** Decoding the blob of a task gives back every one of its fields. */
  lemma TaskRoundTrip(d: TaskData)
    ensures DecodeTask(EncodeTask(d)) == Some(d)
  {
    var tail5 := EncodeBool(d.runMissed);
    var tail4 := EncodeInterval(d.intervalSeconds) + tail5;
    var tail3 := EncodeInt(d.nextRun) + tail4;
    var tail2 := EncodeParams(d.params) + tail3;
    var tail1 := EncodeStr(d.func) + tail2;
    StrRoundTrip(d.id, tail1);
    StrRoundTrip(d.func, tail2);
    ParamsRoundTrip(d.params, tail3);
    IntRoundTrip(d.nextRun, tail4);
    IntervalRoundTrip(d.intervalSeconds, tail5);
    BoolRoundTrip(d.runMissed, []);
    assert tail5 + [] == tail5;
  }
}
