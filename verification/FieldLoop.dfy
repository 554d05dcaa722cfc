/** The shape of the generated reading loops: take one entry after another from the front of the data until
    none is left, or give up. The entry reader is a parameter, so the laws hold for every message. */
module FieldLoop {
  import opened Bytes

  datatype Parsed<T> = Parsed(value: T) | Malformed

  /** Reads the entry at the start of the data: what it gives and how many bytes it takes. */
  type Reader<!E> = seq<Byte> -> Parsed<(E, nat)>

  /** All entries of d, after es. */
  function ReadAll<E>(read: Reader<E>, d: seq<Byte>, es: seq<E>): Parsed<seq<E>>
    decreases |d|
  {
    if d == [] then Parsed(es)
    else match read(d)
         case Parsed((e, n)) => if 1 <= n <= |d| then ReadAll(read, d[n..], es + [e]) else Malformed
         case Malformed => Malformed
  }

  /** What was read stays the same whatever is appended. */
  ghost predicate Stable<E(!new)>(read: Reader<E>) {
    forall d, tail {:trigger read(d + tail)} :: read(d).Parsed? ==> read(d + tail) == read(d)
  }

  /** The loop over iNdEx. */
  method ReadLoop<E>(read: Reader<E>, d: seq<Byte>) returns (r: Parsed<seq<E>>)
    ensures r == ReadAll(read, d, [])
  {
    var es, i := [], 0;
    while i < |d|
      invariant 0 <= i <= |d| && ReadAll(read, d[i..], es) == ReadAll(read, d, [])
    {
      var entry := read(d[i..]);
      if entry.Malformed? {
        return Malformed;
      }
      var (e, n) := entry.value;
      if n < 1 || i + n > |d| {
        return Malformed;
      }
      assert d[i..][n..] == d[i + n..];
      es, i := es + [e], i + n;
    }
    r := Parsed(es);
  }

  /** Reading bytes that follow a readable prefix goes on from what the prefix gave. */
  lemma {:induction false} ReadAllConcat<E(!new)>(read: Reader<E>, a: seq<Byte>, b: seq<Byte>, es: seq<E>)
    requires Stable(read) && ReadAll(read, a, es).Parsed?
    ensures ReadAll(read, a + b, es) == ReadAll(read, b, ReadAll(read, a, es).value)
    decreases |a|
  {
    if a == [] {
      assert a + b == b;
    } else {
      assert read(a + b) == read(a);
      var (e, n) := read(a).value;
      assert (a + b)[n..] == a[n..] + b;
      ReadAllConcat(read, a[n..], b, es + [e]);
    }
  }

  lemma {:induction false} ReadAllSingle<E(!new)>(read: Reader<E>, a: seq<Byte>, b: seq<Byte>, es: seq<E>)
    requires Stable(read) && a != [] && read(a).Parsed? && read(a).value.1 == |a|
    ensures ReadAll(read, a, es) == Parsed(es + [read(a).value.0])
    ensures ReadAll(read, a + b, es) == ReadAll(read, b, es + [read(a).value.0])
  {
  }

  /** The entries already read do not influence the rest. */
  lemma {:induction false} ReadAllAfter<E>(read: Reader<E>, d: seq<Byte>, es: seq<E>)
    ensures ReadAll(read, d, es) == match ReadAll(read, d, [])
                                    case Parsed(more) => Parsed(es + more)
                                    case Malformed => Malformed
    decreases |d|
  {
    if d == [] {
      assert es + [] == es;
    } else if read(d).Parsed? && 1 <= read(d).value.1 <= |d| {
      var (e, n) := read(d).value;
      ReadAllAfter(read, d[n..], es + [e]);
      ReadAllAfter(read, d[n..], [] + [e]);
      if ReadAll(read, d[n..], []).Parsed? {
        var more := ReadAll(read, d[n..], []).value;
        assert es + ([] + [e] + more) == es + [e] + more;
      }
    }
  }

  /** ReadAll is a homomorphism on readable data. */
  function Append<E>(a: Parsed<seq<E>>, b: Parsed<seq<E>>): Parsed<seq<E>> {
    if a.Parsed? && b.Parsed? then Parsed(a.value + b.value) else Malformed
  }

  lemma {:induction false} ReadAllAppend<E(!new)>(read: Reader<E>, a: seq<Byte>, b: seq<Byte>)
    requires Stable(read) && ReadAll(read, a, []).Parsed?
    ensures ReadAll(read, a + b, []) == Append(ReadAll(read, a, []), ReadAll(read, b, []))
  {
    ReadAllConcat(read, a, b, []);
    ReadAllAfter(read, b, ReadAll(read, a, []).value);
  }

  /** One whole entry f put between a and b adds just what f reads as. */
  lemma {:induction false} ReadAllInsert<E(!new)>(read: Reader<E>, a: seq<Byte>, f: seq<Byte>, b: seq<Byte>, x: E)
    requires Stable(read) && ReadAll(read, a, []).Parsed? && f != [] && read(f) == Parsed((x, |f| as nat))
    ensures ReadAll(read, a + (f + b), []) == Append(ReadAll(read, a, []), Append(Parsed([x]), ReadAll(read, b, [])))
  {
    ReadAllAppend(read, a, f + b);
    ReadAllSingle(read, f, [], []);
    assert [] + [x] == [x];
    ReadAllAppend(read, f, b);
  }

  function Joined(chunks: seq<seq<Byte>>): seq<Byte> { if chunks == [] then [] else chunks[0] + Joined(chunks[1..]) }

  lemma {:induction false} ReadAllJoined<E(!new)>(read: Reader<E>, chunks: seq<seq<Byte>>, es: seq<E>, before: seq<E>)
    requires Stable(read) && |chunks| == |es|
    requires forall i :: 0 <= i < |es| ==> chunks[i] != [] && read(chunks[i]) == Parsed((es[i], |chunks[i]| as nat))
    ensures ReadAll(read, Joined(chunks), before) == Parsed(before + es)
    decreases |es|
  {
    if es == [] {
      assert before + es == before;
    } else {
      ReadAllSingle(read, chunks[0], Joined(chunks[1..]), before);
      ReadAllJoined(read, chunks[1..], es[1..], before + [es[0]]);
      assert before + [es[0]] + es[1..] == before + es;
    }
  }

  // ------------------------------------------------------------ skipping groups

  datatype Skip = Skipped(count: nat) | BadField

  /** One turn of the skipping loop: the search ends after count bytes, or goes on inside some groups. */
  datatype SkipStep = Bad | Last(count: nat) | More(count: nat, depth: nat)

  type Skipper = (seq<Byte>, nat, nat) -> SkipStep

  function SkipAll(turn: Skipper, d: seq<Byte>, at: nat, depth: nat): Skip
    decreases |d|
  {
    if d == [] then BadField
    else match turn(d, at, depth)
         case Bad => BadField
         case Last(n) => Skipped(at + n)
         case More(n, depth') => if 1 <= n <= |d| then SkipAll(turn, d[n..], at + n, depth') else BadField
  }

  ghost predicate StableSkipper(turn: Skipper) {
    forall d, tail, at, depth {:trigger turn(d + tail, at, depth)} ::
      turn(d, at, depth).More? || (turn(d, at, depth).Last? && turn(d, at, depth).count <= |d|) ==>
        turn(d + tail, at, depth) == turn(d, at, depth)
  }

  /** A field that was skipped within the data is skipped the same way whatever is appended. */
  lemma {:induction false} SkipAllStable(turn: Skipper, d: seq<Byte>, tail: seq<Byte>, at: nat, depth: nat)
    requires StableSkipper(turn)
    requires SkipAll(turn, d, at, depth).Skipped? && SkipAll(turn, d, at, depth).count <= at + |d|
    ensures SkipAll(turn, d + tail, at, depth) == SkipAll(turn, d, at, depth)
    decreases |d|
  {
    assert turn(d + tail, at, depth) == turn(d, at, depth);
    var s := turn(d, at, depth);
    if s.More? {
      assert (d + tail)[s.count..] == d[s.count..] + tail;
      SkipAllStable(turn, d[s.count..], tail, at + s.count, s.depth);
    }
  }

  /** The loop over iNdEx and depth. */
  method SkipLoop(turn: Skipper, d: seq<Byte>) returns (s: Skip)
    ensures s == SkipAll(turn, d, 0, 0)
  {
    var i, depth := 0, 0;
    while i < |d|
      invariant 0 <= i <= |d| && SkipAll(turn, d[i..], i, depth) == SkipAll(turn, d, 0, 0)
    {
      var step := turn(d[i..], i, depth);
      match step {
        case Bad => return BadField;
        case Last(n) => return Skipped(i + n);
        case More(n, depth') =>
          if n < 1 || i + n > |d| {
            return BadField;
          }
          assert d[i..][n..] == d[i + n..];
          i, depth := i + n, depth';
      }
    }
    s := BadField;
  }

  lemma {:induction false} SkipAllProgress(turn: Skipper, d: seq<Byte>, at: nat, depth: nat)
    requires forall x, i, k :: turn(x, i, k).Last? ==> turn(x, i, k).count >= 1
    requires SkipAll(turn, d, at, depth).Skipped?
    ensures SkipAll(turn, d, at, depth).count > at
    decreases |d|
  {
    var s := turn(d, at, depth);
    if s.More? {
      SkipAllProgress(turn, d[s.count..], at + s.count, s.depth);
    }
  }
}
