/** The cipher on the example of appendix C.3 of FIPS 197. */
module AesExample {
  import opened SBox
  import opened Aes

  datatype Block = Block(p: Column, q: Column, r: Column, s: Column)

  predicate Is(x: seq<bv8>, b: Block) {
    |x| == 16 && ColumnOf(x, 0) == b.p && ColumnOf(x, 1) == b.q && ColumnOf(x, 2) == b.r && ColumnOf(x, 3) == b.s
  }

  /** The round keys from number 0 on. */
  const KEY_0: Block :=
    Block(Column(0x00, 0x01, 0x02, 0x03), Column(0x04, 0x05, 0x06, 0x07),
          Column(0x08, 0x09, 0x0a, 0x0b), Column(0x0c, 0x0d, 0x0e, 0x0f))
  const KEY_1: Block :=
    Block(Column(0x10, 0x11, 0x12, 0x13), Column(0x14, 0x15, 0x16, 0x17),
          Column(0x18, 0x19, 0x1a, 0x1b), Column(0x1c, 0x1d, 0x1e, 0x1f))
  const KEY_2: Block :=
    Block(Column(0xa5, 0x73, 0xc2, 0x9f), Column(0xa1, 0x76, 0xc4, 0x98),
          Column(0xa9, 0x7f, 0xce, 0x93), Column(0xa5, 0x72, 0xc0, 0x9c))
  const KEY_3: Block :=
    Block(Column(0x16, 0x51, 0xa8, 0xcd), Column(0x02, 0x44, 0xbe, 0xda),
          Column(0x1a, 0x5d, 0xa4, 0xc1), Column(0x06, 0x40, 0xba, 0xde))
  const KEY_4: Block :=
    Block(Column(0xae, 0x87, 0xdf, 0xf0), Column(0x0f, 0xf1, 0x1b, 0x68),
          Column(0xa6, 0x8e, 0xd5, 0xfb), Column(0x03, 0xfc, 0x15, 0x67))
  const KEY_5: Block :=
    Block(Column(0x6d, 0xe1, 0xf1, 0x48), Column(0x6f, 0xa5, 0x4f, 0x92),
          Column(0x75, 0xf8, 0xeb, 0x53), Column(0x73, 0xb8, 0x51, 0x8d))
  const KEY_6: Block :=
    Block(Column(0xc6, 0x56, 0x82, 0x7f), Column(0xc9, 0xa7, 0x99, 0x17),
          Column(0x6f, 0x29, 0x4c, 0xec), Column(0x6c, 0xd5, 0x59, 0x8b))
  const KEY_7: Block :=
    Block(Column(0x3d, 0xe2, 0x3a, 0x75), Column(0x52, 0x47, 0x75, 0xe7),
          Column(0x27, 0xbf, 0x9e, 0xb4), Column(0x54, 0x07, 0xcf, 0x39))
  const KEY_8: Block :=
    Block(Column(0x0b, 0xdc, 0x90, 0x5f), Column(0xc2, 0x7b, 0x09, 0x48),
          Column(0xad, 0x52, 0x45, 0xa4), Column(0xc1, 0x87, 0x1c, 0x2f))
  const KEY_9: Block :=
    Block(Column(0x45, 0xf5, 0xa6, 0x60), Column(0x17, 0xb2, 0xd3, 0x87),
          Column(0x30, 0x0d, 0x4d, 0x33), Column(0x64, 0x0a, 0x82, 0x0a))
  const KEY_10: Block :=
    Block(Column(0x7c, 0xcf, 0xf7, 0x1c), Column(0xbe, 0xb4, 0xfe, 0x54),
          Column(0x13, 0xe6, 0xbb, 0xf0), Column(0xd2, 0x61, 0xa7, 0xdf))
  const KEY_11: Block :=
    Block(Column(0xf0, 0x1a, 0xfa, 0xfe), Column(0xe7, 0xa8, 0x29, 0x79),
          Column(0xd7, 0xa5, 0x64, 0x4a), Column(0xb3, 0xaf, 0xe6, 0x40))
  const KEY_12: Block :=
    Block(Column(0x25, 0x41, 0xfe, 0x71), Column(0x9b, 0xf5, 0x00, 0x25),
          Column(0x88, 0x13, 0xbb, 0xd5), Column(0x5a, 0x72, 0x1c, 0x0a))
  const KEY_13: Block :=
    Block(Column(0x4e, 0x5a, 0x66, 0x99), Column(0xa9, 0xf2, 0x4f, 0xe0),
          Column(0x7e, 0x57, 0x2b, 0xaa), Column(0xcd, 0xf8, 0xcd, 0xea))
  const KEY_14: Block :=
    Block(Column(0x24, 0xfc, 0x79, 0xcc), Column(0xbf, 0x09, 0x79, 0xe9),
          Column(0x37, 0x1a, 0xc2, 0x3c), Column(0x6d, 0x68, 0xde, 0x36))

  function KeyRow(n: nat): Block {
    if n == 0 then KEY_0
    else if n == 1 then KEY_1
    else if n == 2 then KEY_2
    else if n == 3 then KEY_3
    else if n == 4 then KEY_4
    else if n == 5 then KEY_5
    else if n == 6 then KEY_6
    else if n == 7 then KEY_7
    else if n == 8 then KEY_8
    else if n == 9 then KEY_9
    else if n == 10 then KEY_10
    else if n == 11 then KEY_11
    else if n == 12 then KEY_12
    else if n == 13 then KEY_13
    else KEY_14
  }

  /** The state at the start of rounds 1 to 14, and after the last one before its key is added. */
  const STATE_0: Block :=
    Block(Column(0x00, 0x11, 0x22, 0x33), Column(0x44, 0x55, 0x66, 0x77),
          Column(0x88, 0x99, 0xaa, 0xbb), Column(0xcc, 0xdd, 0xee, 0xff))
  const STATE_1: Block :=
    Block(Column(0x5f, 0x72, 0x64, 0x15), Column(0x57, 0xf5, 0xbc, 0x92),
          Column(0xf7, 0xbe, 0x3b, 0x29), Column(0x1d, 0xb9, 0xf9, 0x1a))
  const STATE_2: Block :=
    Block(Column(0xbd, 0x2a, 0x39, 0x5d), Column(0x2b, 0x6a, 0xc4, 0x38),
          Column(0xd1, 0x92, 0x44, 0x3e), Column(0x61, 0x5d, 0xa1, 0x95))
  const STATE_3: Block :=
    Block(Column(0x81, 0x0d, 0xce, 0x0c), Column(0xc9, 0xdb, 0x81, 0x72),
          Column(0xb3, 0x67, 0x8c, 0x1e), Column(0x88, 0xa1, 0xb5, 0xbd))
  const STATE_4: Block :=
    Block(Column(0xb2, 0x82, 0x2d, 0x81), Column(0xab, 0xe6, 0xfb, 0x27),
          Column(0x5f, 0xaf, 0x10, 0x3a), Column(0x07, 0x8c, 0x00, 0x33))
  const STATE_5: Block :=
    Block(Column(0xae, 0xb6, 0x5b, 0xa9), Column(0x74, 0xe0, 0xf8, 0x22),
          Column(0xd7, 0x3f, 0x56, 0x7b), Column(0xdb, 0x64, 0xc8, 0x77))
  const STATE_6: Block :=
    Block(Column(0xb9, 0x51, 0xc3, 0x3c), Column(0x02, 0xe9, 0xbd, 0x29),
          Column(0xae, 0x25, 0xcd, 0xb1), Column(0xef, 0xa0, 0x8c, 0xc7))
  const STATE_7: Block :=
    Block(Column(0xeb, 0xb1, 0x9e, 0x1c), Column(0x3e, 0xe7, 0xc9, 0xe8),
          Column(0x7d, 0x75, 0x35, 0xe9), Column(0xed, 0x6b, 0x91, 0x44))
  const STATE_8: Block :=
    Block(Column(0x51, 0x74, 0xc8, 0x66), Column(0x9d, 0xa9, 0x84, 0x35),
          Column(0xa8, 0xb3, 0xe6, 0x2c), Column(0xa9, 0x74, 0xa5, 0xea))
  const STATE_9: Block :=
    Block(Column(0x0f, 0x77, 0xee, 0x31), Column(0xd2, 0xcc, 0xad, 0xc0),
          Column(0x54, 0x30, 0xa8, 0x3f), Column(0x4e, 0xf9, 0x6a, 0xc3))
  const STATE_10: Block :=
    Block(Column(0xbd, 0x86, 0xf0, 0xea), Column(0x74, 0x8f, 0xc4, 0xf4),
          Column(0x63, 0x0f, 0x11, 0xc1), Column(0xe9, 0x33, 0x12, 0x33))
  const STATE_11: Block :=
    Block(Column(0xaf, 0x86, 0x90, 0x41), Column(0x5d, 0x6e, 0x1d, 0xd3),
          Column(0x87, 0xe5, 0xfb, 0xed), Column(0xd5, 0xc8, 0x90, 0x13))
  const STATE_12: Block :=
    Block(Column(0x74, 0x27, 0xfa, 0xe4), Column(0xd8, 0xa6, 0x95, 0x26),
          Column(0x9c, 0xe8, 0x3d, 0x31), Column(0x5b, 0xe0, 0x39, 0x2b))
  const STATE_13: Block :=
    Block(Column(0x2c, 0x21, 0xa8, 0x20), Column(0x30, 0x6f, 0x15, 0x4a),
          Column(0xb7, 0x12, 0xc7, 0x5e), Column(0xee, 0x0d, 0xa0, 0x4f))
  const STATE_14: Block :=
    Block(Column(0xaa, 0x5e, 0xce, 0x06), Column(0xee, 0x6e, 0x3c, 0x56),
          Column(0xdd, 0xe6, 0x8b, 0xac), Column(0x26, 0x21, 0xbe, 0xbf))

  function StateRow(n: nat): Block {
    if n == 0 then STATE_0
    else if n == 1 then STATE_1
    else if n == 2 then STATE_2
    else if n == 3 then STATE_3
    else if n == 4 then STATE_4
    else if n == 5 then STATE_5
    else if n == 6 then STATE_6
    else if n == 7 then STATE_7
    else if n == 8 then STATE_8
    else if n == 9 then STATE_9
    else if n == 10 then STATE_10
    else if n == 11 then STATE_11
    else if n == 12 then STATE_12
    else if n == 13 then STATE_13
    else STATE_14
  }

  const CIPHERED: Block :=
    Block(Column(0x8e, 0xa2, 0xb7, 0xca), Column(0x51, 0x67, 0x45, 0xbf),
          Column(0xea, 0xfc, 0x49, 0x90), Column(0x4b, 0x49, 0x60, 0x89))

  function Add(x: Column, w: Column): Column {
    Column(Xor(x.a, w.a), Xor(x.b, w.b), Xor(x.c, w.c), Xor(x.d, w.d))
  }

  function AddBlock(x: Block, w: Block): Block {
    Block(Add(x.p, w.p), Add(x.q, w.q), Add(x.r, w.r), Add(x.s, w.s))
  }

  function SubWord(w: Column): Column {
    Column(Sub(w.a), Sub(w.b), Sub(w.c), Sub(w.d))
  }

  function SubBlock(x: Block): Block {
    Block(SubWord(x.p), SubWord(x.q), SubWord(x.r), SubWord(x.s))
  }

  function ShiftBlock(x: Block): Block {
    Block(Column(x.p.a, x.q.b, x.r.c, x.s.d), Column(x.q.a, x.r.b, x.s.c, x.p.d),
          Column(x.r.a, x.s.b, x.p.c, x.q.d), Column(x.s.a, x.p.b, x.q.c, x.r.d))
  }

  function MixBlock(x: Block): Block {
    Block(MixSpec(x.p), MixSpec(x.q), MixSpec(x.r), MixSpec(x.s))
  }

  ///////////////////////////////// The expanded key /////////////////////////////////

  /** A word rotated, substituted and given a round constant. */
  function Turned(w: Column, r: bv8): Column {
    Column(Xor(Sub(w.b), r), Sub(w.c), Sub(w.d), Sub(w.a))
  }

  /** The round key after two. */
  function NextKey(k: Block, l: Block, n: nat): Block {
    var p := Add(k.p, if n % 2 == 0 then Turned(l.s, Rcon(n / 2)) else SubWord(l.s));
    var q := Add(k.q, p);
    var r := Add(k.r, q);
    Block(p, q, r, Add(k.s, r))
  }

  lemma RconIs()
    ensures Rcon(1) == 0x01 && Rcon(2) == 0x02 && Rcon(3) == 0x04 && Rcon(4) == 0x08
    ensures Rcon(5) == 0x10 && Rcon(6) == 0x20 && Rcon(7) == 0x40
  {
  }

  lemma Keys2To5()
    ensures KEY_2 == NextKey(KEY_0, KEY_1, 2)
    ensures KEY_3 == NextKey(KEY_1, KEY_2, 3)
    ensures KEY_4 == NextKey(KEY_2, KEY_3, 4)
    ensures KEY_5 == NextKey(KEY_3, KEY_4, 5)
  {
    RconIs();
  }

  lemma Keys6To9()
    ensures KEY_6 == NextKey(KEY_4, KEY_5, 6)
    ensures KEY_7 == NextKey(KEY_5, KEY_6, 7)
    ensures KEY_8 == NextKey(KEY_6, KEY_7, 8)
    ensures KEY_9 == NextKey(KEY_7, KEY_8, 9)
  {
    RconIs();
  }

  lemma Keys10To14()
    ensures KEY_10 == NextKey(KEY_8, KEY_9, 10)
    ensures KEY_11 == NextKey(KEY_9, KEY_10, 11)
    ensures KEY_12 == NextKey(KEY_10, KEY_11, 12)
    ensures KEY_13 == NextKey(KEY_11, KEY_12, 13)
    ensures KEY_14 == NextKey(KEY_12, KEY_13, 14)
  {
    RconIs();
  }

  lemma KeyRows(n: nat)
    requires 2 <= n < 15
    ensures KeyRow(n) == NextKey(KeyRow(n - 2), KeyRow(n - 1), n)
  {
    Keys2To5();
    Keys6To9();
    Keys10To14();
    hide NextKey;
  }

  lemma KeyByteOf(key: seq<bv8>, i: nat, b: nat)
    requires |key| == 32 && i >= 8 && b < 4
    ensures KeyByte(key, 4 * i + b) ==
            Xor(KeyByte(key, 4 * (i - 8) + b),
                if i % 8 == 0
                then Xor(Sub(KeyByte(key, 4 * (i - 1) + (b + 1) % 4)), if b == 0 then Rcon(i / 8) else 0)
                else if i % 8 == 4 then Sub(KeyByte(key, 4 * (i - 1) + b)) else KeyByte(key, 4 * (i - 1) + b))
  {
    hide KeyByte, Sub, Xor, Rcon;
    WordPlace(i, b);
    KeyByteIs(key, 4 * i + b);
  }

  lemma WordPlace(i: nat, b: nat)
    requires b < 4
    ensures (4 * i + b) / 4 == i && (4 * i + b) % 4 == b
  {
  }

  function Word(key: seq<bv8>, i: nat): Column
    requires |key| == 32
  {
    Column(KeyByte(key, 4 * i), KeyByte(key, 4 * i + 1), KeyByte(key, 4 * i + 2), KeyByte(key, 4 * i + 3))
  }

  lemma WordIs(key: seq<bv8>, i: nat)
    requires |key| == 32 && i >= 8
    ensures Word(key, i) ==
            Add(Word(key, i - 8), if i % 8 == 0 then Turned(Word(key, i - 1), Rcon(i / 8))
                                  else if i % 8 == 4 then SubWord(Word(key, i - 1)) else Word(key, i - 1))
  {
    hide KeyByte, Sub, Xor, Rcon;
    KeyByteOf(key, i, 0);
    KeyByteOf(key, i, 1);
    KeyByteOf(key, i, 2);
    KeyByteOf(key, i, 3);
    NoConstant(Sub(KeyByte(key, 4 * (i - 1) + 2)));
    NoConstant(Sub(KeyByte(key, 4 * (i - 1) + 3)));
    NoConstant(Sub(KeyByte(key, 4 * (i - 1))));
  }

  lemma NoConstant(x: bv8)
    ensures Xor(x, 0) == x
  {
  }

  function KeyBlock(key: seq<bv8>, n: nat): Block
    requires |key| == 32
  {
    Block(Word(key, 4 * n), Word(key, 4 * n + 1), Word(key, 4 * n + 2), Word(key, 4 * n + 3))
  }

  lemma KeyBlockIs(key: seq<bv8>, n: nat)
    requires |key| == 32 && n >= 2
    ensures KeyBlock(key, n) == NextKey(KeyBlock(key, n - 2), KeyBlock(key, n - 1), n)
  {
    hide Word, Add, Turned, SubWord, Rcon;
    WordIs(key, 4 * n);
    WordIs(key, 4 * n + 1);
    WordIs(key, 4 * n + 2);
    WordIs(key, 4 * n + 3);
  }

  lemma {:induction false} KeysAre(key: seq<bv8>, n: nat)
    requires |key| == 32 && n < 15 && KeyBlock(key, 0) == KeyRow(0) && KeyBlock(key, 1) == KeyRow(1)
    ensures KeyBlock(key, n) == KeyRow(n)
  {
    hide KeyBlock, NextKey, KeyRow;
    if n >= 2 {
      KeysAre(key, n - 2);
      KeysAre(key, n - 1);
      KeyRows(n);
      KeyBlockIs(key, n);
    }
  }

  ///////////////////////////////// The rounds /////////////////////////////////

  lemma State1()
    ensures STATE_1 == NextState(STATE_0, KEY_0, 0)
  {
  }

  lemma State2()
    ensures STATE_2 == NextState(STATE_1, KEY_1, 1)
  {
  }

  lemma State3()
    ensures STATE_3 == NextState(STATE_2, KEY_2, 2)
  {
  }

  lemma State4()
    ensures STATE_4 == NextState(STATE_3, KEY_3, 3)
  {
  }

  lemma State5()
    ensures STATE_5 == NextState(STATE_4, KEY_4, 4)
  {
  }

  lemma State6()
    ensures STATE_6 == NextState(STATE_5, KEY_5, 5)
  {
  }

  lemma State7()
    ensures STATE_7 == NextState(STATE_6, KEY_6, 6)
  {
  }

  lemma State8()
    ensures STATE_8 == NextState(STATE_7, KEY_7, 7)
  {
  }

  lemma State9()
    ensures STATE_9 == NextState(STATE_8, KEY_8, 8)
  {
  }

  lemma State10()
    ensures STATE_10 == NextState(STATE_9, KEY_9, 9)
  {
  }

  lemma State11()
    ensures STATE_11 == NextState(STATE_10, KEY_10, 10)
  {
  }

  lemma State12()
    ensures STATE_12 == NextState(STATE_11, KEY_11, 11)
  {
  }

  lemma State13()
    ensures STATE_13 == NextState(STATE_12, KEY_12, 12)
  {
  }

  lemma State14()
    ensures STATE_14 == NextState(STATE_13, KEY_13, 13)
  {
  }

  lemma StateRows(n: nat)
    requires n < 14
    ensures StateRow(n + 1) == NextState(StateRow(n), KeyRow(n), n)
  {
    State1();
    State2();
    State3();
    State4();
    State5();
    State6();
    State7();
    State8();
    State9();
    State10();
    State11();
    State12();
    State13();
    State14();
    hide NextState;
  }

  /** The state after round n + 1, the last of 14 without mixing. */
  function NextState(x: Block, w: Block, n: nat): Block {
    var y := ShiftBlock(SubBlock(AddBlock(x, w)));
    if n < 13 then MixBlock(y) else y
  }

  lemma Keyed(key: seq<bv8>, n: nat)
    requires |key| == 32
    ensures Is(RoundKey(key, n), KeyBlock(key, n))
  {
    hide KeyByte;
  }

  lemma Added(x: seq<bv8>, w: seq<bv8>, b: Block, k: Block)
    requires Is(x, b) && Is(w, k)
    ensures Is(AddKey(x, w), AddBlock(b, k))
  {
    hide Xor;
  }

  lemma Substituted(x: seq<bv8>, b: Block)
    requires Is(x, b)
    ensures Is(SubBytes(x), SubBlock(b))
  {
    hide Sub;
  }

  lemma Shifted(x: seq<bv8>, b: Block)
    requires Is(x, b)
    ensures Is(ShiftRows(x), ShiftBlock(b))
  {
  }

  lemma Mixed(x: seq<bv8>, b: Block)
    requires Is(x, b)
    ensures Is(MixColumns(x), MixBlock(b))
  {
    hide MixSpec, MixColumns, ColumnOf;
    MixedColumn(x, 0);
    MixedColumn(x, 1);
    MixedColumn(x, 2);
    MixedColumn(x, 3);
  }

  lemma OneRound(key: seq<bv8>, x: seq<bv8>, n: nat, b: Block)
    requires |key| == 32 && |x| == 16 && n < 14 && Is(Rounds(key, x, n), b)
    ensures Is(Rounds(key, x, n + 1), NextState(b, KeyBlock(key, n), n))
  {
    hide AddKey, SubBytes, RoundKey, ShiftRows, MixColumns, Is, KeyBlock, AddBlock, SubBlock, ShiftBlock, MixBlock;
    var y, w, k := Rounds(key, x, n), RoundKey(key, n), KeyBlock(key, n);
    Keyed(key, n);
    Added(y, w, b, k);
    Substituted(AddKey(y, w), AddBlock(b, k));
    Shifted(SubBytes(AddKey(y, w)), SubBlock(AddBlock(b, k)));
    Mixed(ShiftRows(SubBytes(AddKey(y, w))), ShiftBlock(SubBlock(AddBlock(b, k))));
  }

  /** The key is 00 01 02 and so on to 1f, the block 00 11 22 and so on to ff. */
  predicate IsExample(key: seq<bv8>, x: seq<bv8>) {
    |key| == 32 && Is(key[..16], KEY_0) && Is(key[16..], KEY_1) && Is(x, STATE_0)
  }

  lemma ExampleStarts(key: seq<bv8>, x: seq<bv8>)
    requires IsExample(key, x)
    ensures KeyBlock(key, 0) == KeyRow(0) && KeyBlock(key, 1) == KeyRow(1) && Is(x, StateRow(0))
  {
    assert forall i :: 0 <= i < 16 ==> key[..16][i] == key[i] && key[16..][i] == key[16 + i];
  }

  lemma {:induction false} StatesAre(key: seq<bv8>, x: seq<bv8>, n: nat)
    requires IsExample(key, x) && n <= 14
    ensures Is(Rounds(key, x, n), StateRow(n))
  {
    ExampleStarts(key, x);
    hide Is, StateRow, KeyRow, KeyBlock, NextState;
    if n == 0 {
      assert Rounds(key, x, 0) == x;
    } else {
      hide Rounds;
      StatesAre(key, x, n - 1);
      KeysAre(key, n - 1);
      StateRows(n - 1);
      OneRound(key, x, n - 1, StateRow(n - 1));
    }
  }

  lemma LastKey()
    ensures AddBlock(StateRow(14), KeyRow(14)) == CIPHERED
  {
  }

  /** The example comes out as the standard says, and comes back. */
  lemma ExampleIsRight(key: seq<bv8>, x: seq<bv8>)
    requires IsExample(key, x)
    ensures Is(Cipher(key, x), CIPHERED)
    ensures InvCipher(key, Cipher(key, x)) == x
  {
    InvCipherOfCipher(key, x);
    ExampleStarts(key, x);
    LastKey();
    StatesAre(key, x, 14);
    KeysAre(key, 14);
    Keyed(key, 14);
    hide Is, StateRow, KeyRow, KeyBlock, AddBlock, Rounds, InvCipher, AddKey, RoundKey, IsExample;
    Added(Rounds(key, x, 14), RoundKey(key, 14), StateRow(14), KeyRow(14));
  }
}
