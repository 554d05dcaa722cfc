/** Pulse data (ledger-core/pulse/pulse_data.go). Timestamp and entropy are opaque. */
module PulseData {
  import opened PulseNumber

  datatype Data = Data(pn: Number, epoch: Epoch, next: Delta, prev: Delta, timestamp: nat, entropy: nat)

  predicate HasValidEpoch(d: Data) { IsSpecialEpoch(d.epoch) || (IsTimeEpoch(d.epoch) && d.epoch <= d.pn) }

  predicate IsExpected(d: Data) { d.next == 0 }

  predicate IsFirst(d: Data) { d.prev == 0 }

  // ensureRangeData returns without a panic
  predicate IsRangeData(d: Data) { IsTimePulse(d.pn) && HasValidEpoch(d) && TryPrev(d.pn, d.prev).Some? }

  // EnsurePulseData returns without a panic
  predicate IsPulseData(d: Data) { !IsExpected(d) && IsRangeData(d) }

  // EnsurePulsarData returns without a panic
  predicate IsPulsarData(d: Data) { IsTimeEpoch(d.epoch) && IsPulseData(d) }

  predicate IsExpectedData(d: Data) { IsExpected(d) && IsTimePulse(d.pn) && HasValidEpoch(d) }

  // GetNextPulseNumber and NextPulseNumber: None is the false "ok" of the one and the panic of the other
  function NextNumber(d: Data): Option<Number> { if IsExpected(d) then None else TryNext(d.pn, d.next) }

  function PrevNumber(d: Data): Option<Number> { if IsFirst(d) then None else TryPrev(d.pn, d.prev) }

  predicate IsValidNext(d: Data, n: Data) {
    && d.next == n.prev && !IsExpected(d) && !IsExpected(n)
    && IsTimePulse(d.pn)
    && Add32(d.pn, d.next) == n.pn
    && IsCompatible(d.epoch, n.epoch)
  }
}
