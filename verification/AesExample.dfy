/** The cipher example of appendix B of FIPS 197, round by round. */
module AesExample {
  import opened Aes
  import opened AesSpec

  function OneRound(s: State, k: State): State { AddRoundKey(MixColumns(ShiftRows(SubBytes(s))), k) }

  lemma ExampleRound1()
    ensures OneRound(StateOf(0x193de3be, 0xa0f4e22b, 0x9ac68d2a, 0xe9f84808), StateOf(0xa0fafe17, 0x88542cb1, 0x23a33939, 0x2a6c7605))
            == StateOf(0xa49c7ff2, 0x689f352b, 0x6b5bea43, 0x026a5049)
  {
  }

  lemma ExampleRound2()
    ensures OneRound(StateOf(0xa49c7ff2, 0x689f352b, 0x6b5bea43, 0x026a5049), StateOf(0xf2c295f2, 0x7a96b943, 0x5935807a, 0x7359f67f))
            == StateOf(0xaa8f5f03, 0x61dde3ef, 0x82d24ad2, 0x6832469a)
  {
  }

  lemma ExampleRound3()
    ensures OneRound(StateOf(0xaa8f5f03, 0x61dde3ef, 0x82d24ad2, 0x6832469a), StateOf(0x3d80477d, 0x4716fe3e, 0x1e237e44, 0x6d7a883b))
            == StateOf(0x486c4eee, 0x671d9d0d, 0x4de3b138, 0xd65f58e7)
  {
  }

  lemma ExampleRound4()
    ensures OneRound(StateOf(0x486c4eee, 0x671d9d0d, 0x4de3b138, 0xd65f58e7), StateOf(0xef44a541, 0xa8525b7f, 0xb671253b, 0xdb0bad00))
            == StateOf(0xe0927fe8, 0xc86363c0, 0xd9b13550, 0x85b8be01)
  {
  }

  lemma ExampleRound5()
    ensures OneRound(StateOf(0xe0927fe8, 0xc86363c0, 0xd9b13550, 0x85b8be01), StateOf(0xd4d1c6f8, 0x7c839d87, 0xcaf2b8bc, 0x11f915bc))
            == StateOf(0xf1006f55, 0xc1924cef, 0x7cc88b32, 0x5db5d50c)
  {
  }

  lemma ExampleRound6()
    ensures OneRound(StateOf(0xf1006f55, 0xc1924cef, 0x7cc88b32, 0x5db5d50c), StateOf(0x6d88a37a, 0x110b3efd, 0xdbf98641, 0xca0093fd))
            == StateOf(0x260e2e17, 0x3d41b77d, 0xe86472a9, 0xfdd28b25)
  {
  }

  lemma ExampleRound7()
    ensures OneRound(StateOf(0x260e2e17, 0x3d41b77d, 0xe86472a9, 0xfdd28b25), StateOf(0x4e54f70e, 0x5f5fc9f3, 0x84a64fb2, 0x4ea6dc4f))
            == StateOf(0x5a4142b1, 0x1949dc1f, 0xa3e01965, 0x7a8c040c)
  {
  }

  lemma ExampleRound8()
    ensures OneRound(StateOf(0x5a4142b1, 0x1949dc1f, 0xa3e01965, 0x7a8c040c), StateOf(0xead27321, 0xb58dbad2, 0x312bf560, 0x7f8d292f))
            == StateOf(0xea835cf0, 0x0445332d, 0x655d98ad, 0x8596b0c5)
  {
  }

  lemma ExampleRound9()
    ensures OneRound(StateOf(0xea835cf0, 0x0445332d, 0x655d98ad, 0x8596b0c5), StateOf(0xac7766f3, 0x19fadc21, 0x28d12941, 0x575c006e))
            == StateOf(0xeb40f21e, 0x592e3884, 0x8ba113e7, 0x1bc342d2)
  {
  }

  lemma ExampleEnds()
    ensures AddRoundKey(StateOf(0x3243f6a8, 0x885a308d, 0x313198a2, 0xe0370734), StateOf(0x2b7e1516, 0x28aed2a6, 0xabf71588, 0x09cf4f3c))
            == StateOf(0x193de3be, 0xa0f4e22b, 0x9ac68d2a, 0xe9f84808)
    ensures AddRoundKey(ShiftRows(SubBytes(StateOf(0xeb40f21e, 0x592e3884, 0x8ba113e7, 0x1bc342d2))), StateOf(0xd014f9a8, 0xc9ee2589, 0xe13f0cc8, 0xb6630ca6))
            == StateOf(0x3925841d, 0x02dc09fb, 0xdc118597, 0x196a0b32)
  {
  }

  lemma ExampleNext(s: State, k: seq<State>, r: nat, before: State, after: State)
    requires 0 < r < |k| && Rounds(s, k, r - 1) == before && OneRound(before, k[r]) == after
    ensures Rounds(s, k, r) == after
  {
    hide AddRoundKey, MixColumns, ShiftRows, SubBytes;
  }

  /** Under the schedule of the example the cipher takes its plaintext to its ciphertext. */
  lemma CipherExample(k: seq<State>)
    requires |k| == 11 && k[0] == StateOf(0x2b7e1516, 0x28aed2a6, 0xabf71588, 0x09cf4f3c)
    requires k[1] == StateOf(0xa0fafe17, 0x88542cb1, 0x23a33939, 0x2a6c7605)
    requires k[2] == StateOf(0xf2c295f2, 0x7a96b943, 0x5935807a, 0x7359f67f)
    requires k[3] == StateOf(0x3d80477d, 0x4716fe3e, 0x1e237e44, 0x6d7a883b)
    requires k[4] == StateOf(0xef44a541, 0xa8525b7f, 0xb671253b, 0xdb0bad00)
    requires k[5] == StateOf(0xd4d1c6f8, 0x7c839d87, 0xcaf2b8bc, 0x11f915bc)
    requires k[6] == StateOf(0x6d88a37a, 0x110b3efd, 0xdbf98641, 0xca0093fd)
    requires k[7] == StateOf(0x4e54f70e, 0x5f5fc9f3, 0x84a64fb2, 0x4ea6dc4f)
    requires k[8] == StateOf(0xead27321, 0xb58dbad2, 0x312bf560, 0x7f8d292f)
    requires k[9] == StateOf(0xac7766f3, 0x19fadc21, 0x28d12941, 0x575c006e)
    requires k[10] == StateOf(0xd014f9a8, 0xc9ee2589, 0xe13f0cc8, 0xb6630ca6)
    ensures Cipher(StateOf(0x3243f6a8, 0x885a308d, 0x313198a2, 0xe0370734), k)
            == StateOf(0x3925841d, 0x02dc09fb, 0xdc118597, 0x196a0b32)
  {
    hide OneRound, Rounds, StateOf, AddRoundKey, ShiftRows, SubBytes;
    var s := StateOf(0x3243f6a8, 0x885a308d, 0x313198a2, 0xe0370734);
    ExampleEnds();
    RoundsStart(s, k);
    ExampleRound1();
    ExampleNext(s, k, 1, StateOf(0x193de3be, 0xa0f4e22b, 0x9ac68d2a, 0xe9f84808), StateOf(0xa49c7ff2, 0x689f352b, 0x6b5bea43, 0x026a5049));
    ExampleRound2();
    ExampleNext(s, k, 2, StateOf(0xa49c7ff2, 0x689f352b, 0x6b5bea43, 0x026a5049), StateOf(0xaa8f5f03, 0x61dde3ef, 0x82d24ad2, 0x6832469a));
    ExampleRound3();
    ExampleNext(s, k, 3, StateOf(0xaa8f5f03, 0x61dde3ef, 0x82d24ad2, 0x6832469a), StateOf(0x486c4eee, 0x671d9d0d, 0x4de3b138, 0xd65f58e7));
    ExampleRound4();
    ExampleNext(s, k, 4, StateOf(0x486c4eee, 0x671d9d0d, 0x4de3b138, 0xd65f58e7), StateOf(0xe0927fe8, 0xc86363c0, 0xd9b13550, 0x85b8be01));
    ExampleRound5();
    ExampleNext(s, k, 5, StateOf(0xe0927fe8, 0xc86363c0, 0xd9b13550, 0x85b8be01), StateOf(0xf1006f55, 0xc1924cef, 0x7cc88b32, 0x5db5d50c));
    ExampleRound6();
    ExampleNext(s, k, 6, StateOf(0xf1006f55, 0xc1924cef, 0x7cc88b32, 0x5db5d50c), StateOf(0x260e2e17, 0x3d41b77d, 0xe86472a9, 0xfdd28b25));
    ExampleRound7();
    ExampleNext(s, k, 7, StateOf(0x260e2e17, 0x3d41b77d, 0xe86472a9, 0xfdd28b25), StateOf(0x5a4142b1, 0x1949dc1f, 0xa3e01965, 0x7a8c040c));
    ExampleRound8();
    ExampleNext(s, k, 8, StateOf(0x5a4142b1, 0x1949dc1f, 0xa3e01965, 0x7a8c040c), StateOf(0xea835cf0, 0x0445332d, 0x655d98ad, 0x8596b0c5));
    ExampleRound9();
    ExampleNext(s, k, 9, StateOf(0xea835cf0, 0x0445332d, 0x655d98ad, 0x8596b0c5), StateOf(0xeb40f21e, 0x592e3884, 0x8ba113e7, 0x1bc342d2));
  }
}
