/** The gas a transaction owes before anything runs (core/state_transition.go). */
module IntrinsicGas {
  import opened Types

  const TX_GAS := 21000
  const TX_GAS_CONTRACT_CREATION := 53000
  const DATA_NON_ZERO_GAS := 16
  const DATA_ZERO_GAS := 4
  const DATA_NON_ZERO_WASM_GAS := 4
  const DATA_ZERO_WASM_GAS := 1

  /** How many bytes of `data` are not zero. */
  function NonZeroBytes(data: seq<Byte>): nat {
    if data == [] then 0
    else NonZeroBytes(data[..|data| - 1]) + if data[|data| - 1] != 0 then 1 else 0
  }

  /** The charge as an unbounded sum; `wasm` says that the data is recognised as WASM code. */
  function Charge(data: seq<Byte>, creation: bool, wasm: bool): nat {
    var nz := NonZeroBytes(data);
    var z := |data| - nz;
    NonZeroBounded(data);
    if creation then
      TX_GAS_CONTRACT_CREATION +
      if wasm then nz * DATA_NON_ZERO_WASM_GAS + z * DATA_ZERO_WASM_GAS
      else nz * DATA_NON_ZERO_GAS + z * DATA_ZERO_GAS
    else
      TX_GAS + nz * DATA_NON_ZERO_GAS + z * DATA_ZERO_GAS
  }

  /** What a plain transfer with this data is charged; `None` when the charge overflows 64 bits. */
  function OfTransfer(data: seq<Byte>): Option<nat> {
    if Charge(data, false, false) <= MAX_UINT64 then Some(Charge(data, false, false)) else None
  }

  lemma {:induction false} NonZeroBounded(data: seq<Byte>)
    ensures NonZeroBytes(data) <= |data|
  {
    if data != [] {
      NonZeroBounded(data[..|data| - 1]);
    }
  }

  lemma QuotientTest(room: nat, unit: nat, n: nat)
    requires unit > 0
    ensures room / unit < n <==> room < n * unit
  {
    assert room == (room / unit) * unit + room % unit;
    if room / unit < n {
      assert (room / unit + 1) * unit <= n * unit;
    } else {
      assert n * unit <= (room / unit) * unit;
    }
  }

  /**
   * Computes the charge with 64-bit overflow tests in front of each multiplication. The result is
   * the exact sum, and an error is reported exactly when that sum does not fit.
   */
  method Compute(data: seq<Byte>, creation: bool, wasm: bool) returns (r: Option<nat>)
    ensures r == if Charge(data, creation, wasm) <= MAX_UINT64 then Some(Charge(data, creation, wasm)) else None
  {
    var gas := if creation then TX_GAS_CONTRACT_CREATION else TX_GAS;
    var noZeroGas, zeroGas := DATA_NON_ZERO_GAS, DATA_ZERO_GAS;
    if creation && wasm {
      noZeroGas, zeroGas := DATA_NON_ZERO_WASM_GAS, DATA_ZERO_WASM_GAS;
    }
    if |data| > 0 {
      var nz := 0;
      for i := 0 to |data|
        invariant nz == NonZeroBytes(data[..i])
      {
        assert data[..i + 1][..i] == data[..i];
        if data[i] != 0 {
          nz := nz + 1;
        }
      }
      assert data[..|data|] == data;
      NonZeroBounded(data);
      QuotientTest(MAX_UINT64 - gas, noZeroGas, nz);
      if (MAX_UINT64 - gas) / noZeroGas < nz {
        return None;
      }
      gas := gas + nz * noZeroGas;
      var z := |data| - nz;
      QuotientTest(MAX_UINT64 - gas, zeroGas, z);
      if (MAX_UINT64 - gas) / zeroGas < z {
        return None;
      }
      gas := gas + z * zeroGas;
    }
    return Some(gas);
  }
}
