/** The CRC-64 polynomial of src/rdb_object.rs. */
module CrcPolynomial {
  import opened BitWords

  const POLY64REV: nat := 0x95ac_9329_ac4b_c9b5

  function Poly(): Word {
    ToBits(POLY64REV, 64)
  }

  /** The polynomial has its highest coefficient, so a shift loses nothing. */
  lemma PolyTop()
    ensures Poly()[63]
  {
    assert Power2(4) == 16;
    assert Power2(8) == 256 by { PowerSum(4, 4); }
    assert Power2(16) == 0x1_0000 by { PowerSum(8, 8); }
    assert Power2(32) == 0x1_0000_0000 by { PowerSum(16, 16); }
    assert Power2(48) == 0x1_0000_0000_0000 by { PowerSum(32, 16); }
    assert Power2(60) == 0x1000_0000_0000_0000 by { PowerSum(8, 4); PowerSum(48, 12); }
    assert Power2(63) == 0x8000_0000_0000_0000 by { assert Power2(3) == 8; PowerSum(60, 3); }
    TopBit(POLY64REV, 63);
  }
}
