/** The cumulative transaction count of a chain, known or unknown (count.rs). */
module TxCounts {
  import opened Bounded

  datatype ChainTxCount = Unknown | Established(count: u64) {
    static function FromWire(raw: u64): ChainTxCount {
      if raw == 0 then Unknown else Established(raw)
    }

    function ToWire(): u64 {
      match this
      case Established(count) => count
      case Unknown => 0
    }

    function Advance(height: u32, delta: u64): ChainTxCount {
      match this
      case Established(known) => if known + delta <= U64_MAX then Established(known + delta) else Unknown
      case Unknown => if height == 0 then Established(delta) else Unknown
    }

    function Rewind(delta: u64): ChainTxCount {
      match this
      case Established(known) => if known >= delta then Established(known - delta) else Unknown
      case Unknown => Unknown
    }
  }
}
