// The published values: which shard a scenario's hash picks and which order a
// run id deals are part of the command line's contract. Longer texts are written
// in pieces, so that each step hashes a few characters of a text named by `s`.
module ShardVectors {
  import opened Identity
  import opened Shards
  import opened Utf8

  // ----- hashing text a few characters at a time

  type Ascii = c: char | c < '\U{80}'

  /** One more character is one more step. */
  lemma OneMore(f: (bv64, byte) -> bv64, h: bv64, s: string, c: Ascii)
    ensures Folded(f, h, Bytes(s + [c])) == f(Folded(f, h, Bytes(s)), c as int)
  {
    BytesConcat(s, [c]);
    assert Bytes([c]) == [c as int];
    assert Bytes(s + [c])[..|Bytes(s)|] == Bytes(s);
  }

  lemma TwoMore(f: (bv64, byte) -> bv64, h: bv64, s: string, a: Ascii, b: Ascii)
    ensures Folded(f, h, Bytes(s + [a, b])) == f(f(Folded(f, h, Bytes(s)), a as int), b as int)
  {
    OneMore(f, h, s, a);
    OneMore(f, h, s + [a], b);
    assert s + [a] + [b] == s + [a, b];
  }

  lemma FourMore(f: (bv64, byte) -> bv64, h: bv64, s: string, a: Ascii, b: Ascii, c: Ascii, d: Ascii)
    ensures Folded(f, h, Bytes(s + [a, b, c, d]))
         == f(f(f(f(Folded(f, h, Bytes(s)), a as int), b as int), c as int), d as int)
  {
    TwoMore(f, h, s, a, b);
    TwoMore(f, h, s + [a, b], c, d);
    assert s + [a, b] + [c, d] == s + [a, b, c, d];
  }

  /** The joint of an identity is the zero character. */
  lemma IdentityText(file: string, name: string)
    ensures IdentityBytes(file, name) == Bytes(file + "\0" + name)
  {
    BytesConcat(file + "\0", name);
    BytesConcat(file, "\0");
    assert Bytes("\0") == [0];
  }

  /** Four more characters lead from hash `h` to hash `next`. */
  lemma HashFour(s: string, h: bv64, a: Ascii, b: Ascii, c: Ascii, d: Ascii, next: bv64)
    requires Fnv(Bytes(s)) == h
    requires HashByte(HashByte(HashByte(HashByte(h, a as int), b as int), c as int), d as int) == next
    ensures Fnv(Bytes(s + [a, b, c, d])) == next
  {
    FourMore(HashByte, FNV_OFFSET, s, a, b, c, d);
  }

  lemma Chars0To3(s: string)
    requires Fnv(Bytes(s)) == FNV_OFFSET
    ensures Fnv(Bytes(s + "suit")) == 0xb6e1_7119_21d5_f100
  {
    HashFour(s, FNV_OFFSET, 's', 'u', 'i', 't', 0xb6e1_7119_21d5_f100);
  }

  lemma Chars4To7(s: string)
    requires Fnv(Bytes(s)) == 0xb6e1_7119_21d5_f100
    ensures Fnv(Bytes(s + "e/ca")) == 0xd964_07a0_83e2_0398
  {
    HashFour(s, 0xb6e1_7119_21d5_f100, 'e', '/', 'c', 'a', 0xd964_07a0_83e2_0398);
  }

  lemma Chars8To11(s: string)
    requires Fnv(Bytes(s)) == 0xd964_07a0_83e2_0398
    ensures Fnv(Bytes(s + "se.f")) == 0xdf13_6037_e183_a470
  {
    HashFour(s, 0xd964_07a0_83e2_0398, 's', 'e', '.', 'f', 0xdf13_6037_e183_a470);
  }

  lemma Chars12To15(s: string)
    requires Fnv(Bytes(s)) == 0xdf13_6037_e183_a470
    ensures Fnv(Bytes(s + "eatu")) == 0x19e4_214c_07cf_b19d
  {
    HashFour(s, 0xdf13_6037_e183_a470, 'e', 'a', 't', 'u', 0x19e4_214c_07cf_b19d);
  }

  lemma Chars16To19(s: string)
    requires Fnv(Bytes(s)) == 0x19e4_214c_07cf_b19d
    ensures Fnv(Bytes(s + "re\0s")) == 0xb4b7_050c_d241_f371
  {
    HashFour(s, 0x19e4_214c_07cf_b19d, 'r', 'e', '\0', 's', 0xb4b7_050c_d241_f371);
  }

  /** What the six identities start with. */
  lemma CommonPart(s: string)
    requires s == []
    ensures Fnv(Bytes(s + "suit" + "e/ca" + "se.f" + "eatu" + "re\0s")) == 0xb4b7_050c_d241_f371
  {
    assert Fnv(Bytes(s)) == FNV_OFFSET;
    Chars0To3(s);
    Chars4To7(s + "suit");
    Chars8To11(s + "suit" + "e/ca");
    Chars12To15(s + "suit" + "e/ca" + "se.f");
    Chars16To19(s + "suit" + "e/ca" + "se.f" + "eatu");
  }

  /** One more character makes the identity of a scenario. */
  lemma LastChar(s: string, c: Ascii, hash: bv64)
    requires s == [] && HashByte(0xb4b7_050c_d241_f371, c as int) == hash
    ensures Fnv(Bytes(s + "suit" + "e/ca" + "se.f" + "eatu" + "re\0s" + [c])) == hash
  {
    CommonPart(s);
    OneMore(HashByte, FNV_OFFSET, s + "suit" + "e/ca" + "se.f" + "eatu" + "re\0s", c);
  }

  lemma FullText(s: string, c: char)
    requires s == []
    ensures "suite/case" + ".feature" + "\0" + ['s', c] == s + "suit" + "e/ca" + "se.f" + "eatu" + "re\0s" + [c]
  {
  }

  lemma IdentityHash(c: Ascii, hash: bv64)
    requires HashByte(0xb4b7_050c_d241_f371, c as int) == hash
    ensures Fnv(IdentityBytes("suite/case" + ".feature", ['s', c])) == hash
  {
    LastChar([], c, hash);
    FullText([], c);
    IdentityText("suite/case" + ".feature", ['s', c]);
  }

  lemma Assigned1()
    ensures Bucket("suite/case" + ".feature", "s1", 2) == 1 && Bucket("suite/case" + ".feature", "s1", 3) == 1
  {
    IdentityHash('1', 0x54f0_d4c9_4610_55c0);
    assert Avalanche(0x54f0_d4c9_4610_55c0) == 0x40c7_3276_aa6d_7313;
  }

  lemma Assigned2()
    ensures Bucket("suite/case" + ".feature", "s2", 2) == 0 && Bucket("suite/case" + ".feature", "s2", 3) == 0
  {
    IdentityHash('2', 0x54f0_d7c9_4610_5ad9);
    assert Avalanche(0x54f0_d7c9_4610_5ad9) == 0xe53c_f8c6_22dc_0f46;
  }

  lemma Assigned3()
    ensures Bucket("suite/case" + ".feature", "s3", 2) == 1 && Bucket("suite/case" + ".feature", "s3", 3) == 2
  {
    IdentityHash('3', 0x54f0_d6c9_4610_5926);
    assert Avalanche(0x54f0_d6c9_4610_5926) == 0xbe4c_1979_6d73_e3ed;
  }

  lemma Assigned4()
    ensures Bucket("suite/case" + ".feature", "s4", 2) == 0 && Bucket("suite/case" + ".feature", "s4", 3) == 0
  {
    IdentityHash('4', 0x54f0_d9c9_4610_5e3f);
    assert Avalanche(0x54f0_d9c9_4610_5e3f) == 0x91e8_0190_dd6b_f590;
  }

  lemma Assigned5()
    ensures Bucket("suite/case" + ".feature", "s5", 2) == 1 && Bucket("suite/case" + ".feature", "s5", 3) == 0
  {
    IdentityHash('5', 0x54f0_d8c9_4610_5c8c);
    assert Avalanche(0x54f0_d8c9_4610_5c8c) == 0x42f5_49a5_85ca_1585;
  }

  lemma Assigned6()
    ensures Bucket("suite/case" + ".feature", "s6", 2) == 0 && Bucket("suite/case" + ".feature", "s6", 3) == 0
  {
    IdentityHash('6', 0x54f0_dbc9_4610_61a5);
    assert Avalanche(0x54f0_dbc9_4610_61a5) == 0xbbfa_9ff5_5fa3_0c44;
  }

  /** Which of two and which of three shards the scenarios s1 to s6 of one file go to. */
  lemma ShardAssignment()
    ensures var file := "suite/case" + ".feature";
            && Bucket(file, "s1", 2) == 1 && Bucket(file, "s1", 3) == 1
            && Bucket(file, "s2", 2) == 0 && Bucket(file, "s2", 3) == 0
            && Bucket(file, "s3", 2) == 1 && Bucket(file, "s3", 3) == 2
            && Bucket(file, "s4", 2) == 0 && Bucket(file, "s4", 3) == 0
            && Bucket(file, "s5", 2) == 1 && Bucket(file, "s5", 3) == 0
            && Bucket(file, "s6", 2) == 0 && Bucket(file, "s6", 3) == 0
  {
    Assigned1();
    Assigned2();
    Assigned3();
    Assigned4();
    Assigned5();
    Assigned6();
  }

  // ----- the order of the run id pinned-seed

  lemma Seed0To2(s: string)
    requires Fnv(Bytes(s)) == FNV_OFFSET
    ensures Fnv(Bytes(s + "pi" + "n")) == 0x77af_7619_5660_0b54
  {
    TwoMore(HashByte, FNV_OFFSET, s, 'p', 'i');
    OneMore(HashByte, FNV_OFFSET, s + "pi", 'n');
    assert HashByte(HashByte(HashByte(FNV_OFFSET, 'p' as int), 'i' as int), 'n' as int) == 0x77af_7619_5660_0b54;
  }

  lemma Seed3To6(s: string)
    requires Fnv(Bytes(s)) == 0x77af_7619_5660_0b54
    ensures Fnv(Bytes(s + "ned-")) == 0xf7c1_9142_0b9d_bfc6
  {
    HashFour(s, 0x77af_7619_5660_0b54, 'n', 'e', 'd', '-', 0xf7c1_9142_0b9d_bfc6);
  }

  lemma Seed7To10(s: string)
    requires Fnv(Bytes(s)) == 0xf7c1_9142_0b9d_bfc6
    ensures Fnv(Bytes(s + "se" + "ed")) == 0xcedb_f1a9_ab20_381f
  {
    TwoMore(HashByte, FNV_OFFSET, s, 's', 'e');
    TwoMore(HashByte, FNV_OFFSET, s + "se", 'e', 'd');
    assert HashByte(HashByte(HashByte(HashByte(0xf7c1_9142_0b9d_bfc6, 's' as int), 'e' as int), 'e' as int), 'd' as int)
        == 0xcedb_f1a9_ab20_381f;
  }

  lemma PinnedText(s: string)
    requires s == []
    ensures "pinned" + "-seed" == s + "pi" + "n" + "ned-" + "se" + "ed"
  {
  }

  lemma PinnedSeed()
    ensures Fnv(Bytes("pinned" + "-seed")) == 0xcedb_f1a9_ab20_381f
  {
    var s: string := [];
    assert Fnv(Bytes(s)) == FNV_OFFSET;
    Seed0To2(s);
    Seed3To6(s + "pi" + "n");
    Seed7To10(s + "pi" + "n" + "ned-");
    PinnedText(s);
  }

  /** One draw: the next seed, the number drawn there and the position it picks. */
  lemma Deal<T>(s: seq<T>, seed: bv64, next: bv64, i: nat, j: nat) returns (t: seq<T>)
    requires 0 < i < |s| && NextSeed(seed) == next && Pick(Draw(next), i) == j
    ensures |t| == |s| && t == s[i := s[j]][j := s[i]]
    ensures Dealt(s, SplitMix(), seed, i) == Dealt(t, SplitMix(), next, i - 1)
  {
    t := Swap(s, i, j);
  }

  lemma Deal5<T>(s: seq<T>) returns (t: seq<T>)
    requires |s| == 6
    ensures |t| == 6 && t == s[5 := s[4]][4 := s[5]]
    ensures Dealt(s, SplitMix(), 0xcedb_f1a9_ab20_381f, 5) == Dealt(t, SplitMix(), 0x6d13_6b63_2a6a_b434, 4)
  {
    assert Draw(0x6d13_6b63_2a6a_b434) == 0xff85_7a28_6091_a868;
    t := Deal(s, 0xcedb_f1a9_ab20_381f, 0x6d13_6b63_2a6a_b434, 5, 4);
  }

  lemma Deal4<T>(s: seq<T>) returns (t: seq<T>)
    requires |s| == 6
    ensures |t| == 6 && t == s[4 := s[3]][3 := s[4]]
    ensures Dealt(s, SplitMix(), 0x6d13_6b63_2a6a_b434, 4) == Dealt(t, SplitMix(), 0xb4a_e51c_a9b5_3049, 3)
  {
    assert Draw(0xb4a_e51c_a9b5_3049) == 0x60c0_4e1b_9fc9_0532;
    t := Deal(s, 0x6d13_6b63_2a6a_b434, 0xb4a_e51c_a9b5_3049, 4, 3);
  }

  lemma Deal3<T>(s: seq<T>) returns (t: seq<T>)
    requires |s| == 6
    ensures |t| == 6 && t == s[3 := s[1]][1 := s[3]]
    ensures Dealt(s, SplitMix(), 0xb4a_e51c_a9b5_3049, 3) == Dealt(t, SplitMix(), 0xa982_5ed6_28ff_ac5e, 2)
  {
    assert Draw(0xa982_5ed6_28ff_ac5e) == 0xb919_af5f_32ba_f489;
    t := Deal(s, 0xb4a_e51c_a9b5_3049, 0xa982_5ed6_28ff_ac5e, 3, 1);
  }

  lemma Deal2<T>(s: seq<T>) returns (t: seq<T>)
    requires |s| == 6
    ensures |t| == 6 && t == s[2 := s[0]][0 := s[2]]
    ensures Dealt(s, SplitMix(), 0xa982_5ed6_28ff_ac5e, 2) == Dealt(t, SplitMix(), 0x47b9_d88f_a84a_2873, 1)
  {
    assert Draw(0x47b9_d88f_a84a_2873) == 0x583c_d600_b359_fcd2;
    t := Deal(s, 0xa982_5ed6_28ff_ac5e, 0x47b9_d88f_a84a_2873, 2, 0);
  }

  lemma Deal1<T>(s: seq<T>) returns (t: seq<T>)
    requires |s| == 6
    ensures |t| == 6 && t == s[1 := s[1]][1 := s[1]]
    ensures Dealt(s, SplitMix(), 0x47b9_d88f_a84a_2873, 1) == Dealt(t, SplitMix(), 0xe5f1_5249_2794_a488, 0)
  {
    assert Draw(0xe5f1_5249_2794_a488) == 0x4bf1_f0fd_7009_aa35;
    t := Deal(s, 0x47b9_d88f_a84a_2873, 0xe5f1_5249_2794_a488, 1, 1);
  }

  /** The order that run id deals six scenarios, whatever they are. */
  lemma PinnedOrder<T>(a: T, b: T, c: T, d: T, e: T, f: T)
    ensures Shuffled([a, b, c, d, e, f], "pinned" + "-seed") == [c, f, a, b, d, e]
  {
    PinnedSeed();
    PinnedDeal([a, b, c, d, e, f]);
  }

  lemma PinnedDeal<T>(s: seq<T>)
    requires |s| == 6
    ensures Dealt(s, SplitMix(), 0xcedb_f1a9_ab20_381f, 5) == [s[2], s[5], s[0], s[1], s[3], s[4]]
  {
    var s5 := Deal5(s);
    var s4 := Deal4(s5);
    var s3 := Deal3(s4);
    var s2 := Deal2(s3);
    var s1 := Deal1(s2);
    Swapped(s, s5, s4, s3, s2, s1);
  }

  lemma Swapped<T>(s: seq<T>, s5: seq<T>, s4: seq<T>, s3: seq<T>, s2: seq<T>, s1: seq<T>)
    requires |s| == |s5| == |s4| == |s3| == |s2| == 6
    requires s5 == s[5 := s[4]][4 := s[5]]
    requires s4 == s5[4 := s5[3]][3 := s5[4]]
    requires s3 == s4[3 := s4[1]][1 := s4[3]]
    requires s2 == s3[2 := s3[0]][0 := s3[2]]
    requires s1 == s2[1 := s2[1]][1 := s2[1]]
    ensures s1 == [s[2], s[5], s[0], s[1], s[3], s[4]]
  {
  }
}
