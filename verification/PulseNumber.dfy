/** Pulse numbers and epochs (ledger-core/pulse/pulse_number.go, pulse_epoch.go).
    A number is a uint32 and a delta a uint16; a Go panic or a false "ok" is None. */
module PulseNumber {
  datatype Option<+T> = None | Some(value: T)

  type Number = n: int | 0 <= n < 0x1_0000_0000
  type Delta = d: int | 0 <= d <= 0xFFFF

  const UNKNOWN: Number := 0
  const LOCAL_RELATIVE: Number := 65536
  const MIN_TIME_PULSE: Number := 65537
  const MAX_TIME_PULSE: Number := 0x3FFF_FFFF

  predicate IsTimePulse(n: Number) { MIN_TIME_PULSE <= n <= MAX_TIME_PULSE }

  predicate IsBeforeOrEq(n: Number, pn: Number) { MIN_TIME_PULSE <= n <= pn }

  predicate IsSpecialOrPrivate(n: Number) { UNKNOWN < n < MIN_TIME_PULSE }

  // uint32 addition and subtraction wrap around
  function Add32(a: Number, b: Number): Number { (a + b) % 0x1_0000_0000 }

  function Sub32(a: Number, b: Number): Number { (a - b) % 0x1_0000_0000 }

  function Mul32(a: Number, b: Number): Number { (a * b) % 0x1_0000_0000 }

  // the number part of a flagged uint32: its lower 30 bits
  function OfUint32(n: Number): Number { n % 0x4000_0000 }

  function TryNext(n: Number, d: Delta): Option<Number> {
    if !IsTimePulse(n) || n + d > MAX_TIME_PULSE then None else Some(n + d)
  }

  function TryPrev(n: Number, d: Delta): Option<Number> {
    if !IsTimePulse(n) || n - d < MIN_TIME_PULSE then None else Some(n - d)
  }

  /** Is pn the same time pulse as n, or outside n's own delta window? */
  predicate IsEqOrOut(n: Number, pn: Number, prevDelta: Delta, nextDelta: Delta) {
    IsTimePulse(n) && IsTimePulse(pn) && (n == pn || pn <= n - prevDelta || pn >= n + nextDelta)
  }

  type Epoch = Number

  const ARTICULATION_EPOCH: Epoch := 2
  const MAX_SPECIAL_EPOCH: Epoch := 2

  predicate IsSpecialEpoch(e: Epoch) { 0 < e <= MAX_SPECIAL_EPOCH }

  predicate IsTimeEpoch(e: Epoch) { MIN_TIME_PULSE <= e <= MAX_TIME_PULSE }

  predicate IsCompatible(v: Epoch, vv: Epoch) {
    if IsTimeEpoch(v) then vv == ARTICULATION_EPOCH || IsTimeEpoch(vv)
    else IsSpecialEpoch(v) && (v == vv || (v == ARTICULATION_EPOCH && IsTimeEpoch(vv)))
  }
}
