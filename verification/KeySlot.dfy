/** Redis Cluster hash slots: the hash tag, the CRC16 loop and atomic batches. */
module KeySlot {
  import opened Polynomial

  type Bytes = seq<bv8>

  // ----- bits

  function Wide(b: bv8): bv16 { b as bv16 }

  function Raised(b: bv8): bv16 { (b as bv16) << 8 }

  function Mask(i: nat): bv16
    requires i < 16
  {
    match i
    case 0 => 0x1
    case 1 => 0x2
    case 2 => 0x4
    case 3 => 0x8
    case 4 => 0x10
    case 5 => 0x20
    case 6 => 0x40
    case 7 => 0x80
    case 8 => 0x100
    case 9 => 0x200
    case 10 => 0x400
    case 11 => 0x800
    case 12 => 0x1000
    case 13 => 0x2000
    case 14 => 0x4000
    case 15 => 0x8000
  }

  predicate Bit(x: bv16, i: nat)
    requires i < 16
  {
    x & Mask(i) != 0
  }

  function Bits(x: bv16): (p: Poly)
    ensures forall i: nat :: i in p <==> i < 16 && Bit(x, i)
  {
    set i: nat | 0 <= i < 16 && Bit(x, i)
  }

  lemma XorMask(x: bv16, y: bv16, m: bv16)
    requires m & (m - 1) == 0
    ensures ((x ^ y) & m != 0) == ((x & m != 0) != (y & m != 0))
  { }

  lemma ShiftMask(x: bv16, m: bv16)
    requires m & 0x8000 == 0
    ensures ((x << 1) & (m << 1) != 0) == (x & m != 0)
    ensures (x << 1) & 1 == 0
  { }

  lemma ByteMask(b: bv8, m: bv16)
    ensures m < 0x100 ==> Raised(b) & m == 0
    ensures m >= 0x100 ==> (b as bv16) & m == 0 || m & 0xFF != 0
    ensures m < 0x100 ==> (Raised(b) & (m << 8) != 0) == ((b as bv16) & m != 0)
  { }

  lemma LowMask(x: bv16, m: bv16)
    ensures x % 16384 == x & 0x3FFF
    ensures m & 0x3FFF == m ==> (x & 0x3FFF) & m == x & m
    ensures m & 0x3FFF == 0 ==> (x & 0x3FFF) & m == 0
  { }

  lemma MaskFacts(i: nat)
    requires i < 16
    ensures Mask(i) & (Mask(i) - 1) == 0
    ensures i < 15 ==> Mask(i) << 1 == Mask(i + 1) && Mask(i) & 0x8000 == 0
    ensures i < 8 ==> Mask(i) << 8 == Mask(i + 8) && Mask(i) < 0x100
    ensures i >= 8 ==> Mask(i) >= 0x100 && Mask(i) & 0xFF == 0
    ensures Mask(i) & 0x3FFF == if i < 14 then Mask(i) else 0
  { }

  lemma BitsXor(x: bv16, y: bv16)
    ensures Bits(x ^ y) == Add(Bits(x), Bits(y))
  {
    forall i: nat | i < 16 ensures Bit(x ^ y, i) == (Bit(x, i) != Bit(y, i)) {
      MaskFacts(i);
      XorMask(x, y, Mask(i));
    }
  }

  lemma ShiftLowBit(x: bv16)
    ensures !Bit(x << 1, 0)
  {
    ShiftMask(x, 1);
  }

  lemma ShiftBit(x: bv16, i: nat)
    requires 0 < i < 16
    ensures Bit(x << 1, i) == Bit(x, i - 1)
  {
    hide Mask;
    var m := Mask(i - 1);
    MaskFacts(i - 1);
    ShiftMask(x, m);
    assert Mask(i) == m << 1;
  }

  lemma BitsShift(x: bv16)
    ensures Bits(x << 1) == Shift(Bits(x), 1) - {16}
  {
    hide Bit;
    forall i: nat ensures i in Bits(x << 1) <==> i in Shift(Bits(x), 1) - {16} {
      if i == 0 {
        ShiftLowBit(x);
      } else if i < 16 {
        ShiftBit(x, i);
      }
    }
  }

  lemma ByteBit(b: bv8, i: nat)
    requires i < 16
    ensures Bit(Raised(b), i) == if i < 8 then false else Bit(Wide(b), i - 8)
    ensures i >= 8 ==> !Bit(Wide(b), i)
  {
    hide Mask;
    MaskFacts(i);
    ByteMask(b, Mask(i));
    if i >= 8 {
      MaskFacts(i - 8);
      ByteMask(b, Mask(i - 8));
    }
  }

  lemma BitsByte(b: bv8)
    ensures Below(Bits(Wide(b)), 8)
    ensures Bits(Raised(b)) == Shift(Bits(Wide(b)), 8)
  {
    hide Bit;
    var low, high := Bits(Wide(b)), Bits(Raised(b));
    forall i: nat | i in low ensures i < 8 { ByteBit(b, i); }
    forall i: nat ensures i in high <==> i in Shift(low, 8) { if i < 16 { ByteBit(b, i); } }
  }

  lemma BitsGenerator()
    ensures Bits(0x1021) == GENERATOR - {16}
  {
    forall i: nat | i < 16 ensures Bit(0x1021, i) <==> i in GENERATOR { }
  }

  // ----- the loop

  function Step(crc: bv16): bv16 { if crc & 0x8000 != 0 then (crc << 1) ^ 0x1021 else crc << 1 }

  function Steps(crc: bv16, n: nat): bv16 { if n == 0 then crc else Step(Steps(crc, n - 1)) }

  function Crc(s: Bytes): bv16 {
    if s == [] then 0 else Steps(Crc(s[..|s| - 1]) ^ Raised(s[|s| - 1]), 8)
  }

  /** The bits of the message, the last bit of the last byte being the constant coefficient. */
  ghost function Message(s: Bytes): Poly {
    if s == [] then {} else Add(Shift(Message(s[..|s| - 1]), 8), Bits(Wide(s[|s| - 1])))
  }

  lemma TopMask(crc: bv16)
    ensures Bit(crc, 15) <==> crc & 0x8000 != 0
  { }

  lemma TopBit(crc: bv16)
    ensures 16 in Shift(Bits(crc), 1) <==> crc & 0x8000 != 0
  {
    TopMask(crc);
    hide Bit;
  }

  lemma ReduceTop(shifted: Poly)
    requires 16 in shifted
    ensures Add(shifted - {16}, GENERATOR - {16}) == Add(shifted, GENERATOR)
  { }

  lemma StepBits(crc: bv16)
    ensures var shifted := Shift(Bits(crc), 1);
            Bits(Step(crc)) == if 16 in shifted then Add(shifted, GENERATOR) else shifted
  {
    var shifted := Shift(Bits(crc), 1);
    TopBit(crc);
    BitsShift(crc);
    if 16 in shifted {
      BitsXor(crc << 1, 0x1021);
      BitsGenerator();
      ReduceTop(shifted);
    } else {
      assert shifted - {16} == shifted;
    }
    hide Bit, Bits, Add, Shift, GENERATOR;
  }

  /** One turn of the inner loop multiplies by x and takes the generator away when the degree reaches sixteen. */
  lemma StepDivides(a: Poly, crc: bv16)
    requires Congruent(a, Bits(crc))
    ensures Congruent(Shift(a, 1), Bits(Step(crc)))
  {
    hide Bit, Bits, Add, Shift, Step, Congruent;
    CongruentShift(a, Bits(crc));
    StepBits(crc);
    if 16 in Shift(Bits(crc), 1) { CongruentReduce(Shift(a, 1), Shift(Bits(crc), 1)); }
  }

  lemma NoShift(a: Poly)
    ensures Shift(a, 0) == a
  { }

  lemma {:induction false} StepsDivide(a: Poly, crc: bv16, n: nat)
    requires Congruent(a, Bits(crc))
    ensures Congruent(Shift(a, n), Bits(Steps(crc, n)))
  {
    NoShift(a);
    hide Bit, Bits, Add, Shift, Step, Congruent;
    if n > 0 {
      StepsDivide(a, crc, n - 1);
      StepDivides(Shift(a, n - 1), Steps(crc, n - 1));
      ShiftTwice(a, n - 1, 1);
    }
  }

  /** Appending a byte. */
  lemma AppendByte(front: Poly, b: Poly)
    ensures Shift(Add(Shift(front, 16), Shift(b, 8)), 8) == Shift(Add(Shift(front, 8), b), 16)
  {
    ShiftSum(Shift(front, 16), Shift(b, 8), 8);
    ShiftsCommute(front, 16, 8);
    ShiftTwice(b, 8, 8);
    ShiftSum(Shift(front, 8), b, 16);
    hide Add, Shift;
  }

  lemma ZeroDivides()
    ensures Congruent(Shift({}, 16), Bits(0))
  {
    assert Bits(0) == {} && Shift({}, 16) == {};
    assert Shift({}, 16) == Add(TimesGenerator({}), Bits(0));
  }

  /** The inner loop divides what the next byte was added to. */
  lemma WordDivides(front: Poly, low: Poly, rest: Poly, word: bv16)
    requires Congruent(Shift(front, 16), rest) && Bits(word) == Add(rest, Shift(low, 8))
    ensures Congruent(Shift(Add(Shift(front, 8), low), 16), Bits(Steps(word, 8)))
  {
    hide Bit, Bits, Add, Shift, Steps, Congruent;
    CongruentAdd(Shift(front, 16), rest, Shift(low, 8));
    StepsDivide(Add(Shift(front, 16), Shift(low, 8)), word, 8);
    AppendByte(front, low);
  }

  /** One turn of the outer loop. */
  lemma ByteDivides(front: Poly, crc: bv16, b: bv8)
    requires Congruent(Shift(front, 16), Bits(crc))
    ensures Congruent(Shift(Add(Shift(front, 8), Bits(Wide(b))), 16), Bits(Steps(crc ^ Raised(b), 8)))
  {
    BitsXor(crc, Raised(b));
    BitsByte(b);
    WordDivides(front, Bits(Wide(b)), Bits(crc), crc ^ Raised(b));
    hide *;
  }

  lemma EmptyMessage()
    ensures Crc([]) == 0 && Message([]) == {}
  { }

  lemma LastByte(s: Bytes)
    requires s != []
    ensures Crc(s) == Steps(Crc(s[..|s| - 1]) ^ Raised(s[|s| - 1]), 8)
    ensures Message(s) == Add(Shift(Message(s[..|s| - 1]), 8), Bits(Wide(s[|s| - 1])))
  {
    hide Steps, Raised, Wide, Bits, Add, Shift;
  }

  lemma {:induction false} CrcDivides(s: Bytes)
    ensures Congruent(Shift(Message(s), 16), Bits(Crc(s)))
  {
    hide Bit, Bits, Add, Shift, Steps, Congruent, Wide, Raised, Crc, Message;
    if s == [] {
      EmptyMessage();
      ZeroDivides();
    } else {
      LastByte(s);
      CrcDivides(s[..|s| - 1]);
      ByteDivides(Message(s[..|s| - 1]), Crc(s[..|s| - 1]), s[|s| - 1]);
    }
  }

  /** The checksum of s is the remainder of its message times x^16 on division by the generator, the only one. */
  lemma CrcIsRemainder(s: Bytes, r: Poly)
    ensures Remainder(Shift(Message(s), 16), r) <==> r == Bits(Crc(s))
  {
    CrcDivides(s);
    hide Crc, Message, Bit, Shift, Add;
    if Remainder(Shift(Message(s), 16), r) { RemainderUnique(Shift(Message(s), 16), r, Bits(Crc(s))); }
  }

  /** Reduction to 16384 slots keeps the fourteen lowest coefficients. */
  lemma SlotBits(crc: bv16)
    ensures (crc % 16384) as int < 16384
    ensures Bits(crc % 16384) == set e | e in Bits(crc) && e < 14
  {
    SmallSlot(crc);
    forall i: nat | i < 16 ensures Bit(crc % 16384, i) == (i < 14 && Bit(crc, i)) { LowBit(crc, i); }
    hide Bit;
  }

  lemma SmallSlot(x: bv16)
    ensures (x % 16384) as int < 16384
  { }

  lemma LowBit(x: bv16, i: nat)
    requires i < 16
    ensures Bit(x % 16384, i) == (i < 14 && Bit(x, i))
  {
    hide Mask;
    MaskFacts(i);
    LowMask(x, Mask(i));
  }

  // ----- hash tags

  const OPEN: bv8 := 0x7B

  const CLOSE: bv8 := 0x7D

  method IndexByte(s: Bytes, b: bv8) returns (at: int)
    ensures -1 <= at < |s|
    ensures at == First(s, b)
  {
    at := 0;
    while at < |s|
      invariant 0 <= at <= |s| && First(s, b) == if First(s[at..], b) < 0 then -1 else at + First(s[at..], b)
    {
      if s[at] == b { return; }
      at := at + 1;
    }
    at := -1;
  }

  function First(s: Bytes, b: bv8): (at: int)
    ensures -1 <= at < |s|
    ensures at >= 0 ==> s[at] == b && b !in s[..at]
    ensures at < 0 ==> b !in s
  {
    if s == [] then -1
    else if s[0] == b then 0
    else if First(s[1..], b) < 0 then -1
    else assert s[..1 + First(s[1..], b)] == [s[0]] + s[1..][..First(s[1..], b)]; 1 + First(s[1..], b)
  }

  /** tag is the hash tag of key: it stands between the first brace and the first closing one after it. */
  ghost predicate HasTag(key: Bytes, tag: Bytes) {
    && tag != [] && CLOSE !in tag
    && exists before: Bytes, after: Bytes :: key == before + [OPEN] + tag + [CLOSE] + after && OPEN !in before
  }

  /** What is hashed. */
  function Hashed(key: Bytes): Bytes {
    var start := First(key, OPEN);
    if start < 0 then key
    else
      var end := First(key[start + 1..], CLOSE);
      if end > 0 then key[start + 1..start + 1 + end] else key
  }

  lemma {:induction false} FirstIs(s: Bytes, b: bv8, at: nat)
    requires at < |s| && s[at] == b && b !in s[..at]
    ensures First(s, b) == at
  {
    if at > 0 {
      assert s[0] == s[..at][0] && s[1..][..at - 1] == s[..at][1..];
      FirstIs(s[1..], b, at - 1);
    }
  }

  lemma FirstAfter(before: Bytes, b: bv8, after: Bytes)
    requires b !in before
    ensures First(before + [b] + after, b) == |before|
    ensures (before + [b] + after)[|before| + 1..] == after
  {
    var s := before + [b] + after;
    assert s[..|before|] == before;
    FirstIs(s, b, |before|);
  }

  /** Where the tag stands is where the two searches find the braces. */
  lemma TagPosition(key: Bytes, tag: Bytes)
    requires HasTag(key, tag)
    ensures First(key, OPEN) >= 0
    ensures var rest := key[First(key, OPEN) + 1..]; First(rest, CLOSE) == |tag| && rest[..|tag|] == tag
  {
    var before: Bytes, after: Bytes :| key == before + [OPEN] + tag + [CLOSE] + after && OPEN !in before;
    var rest := tag + [CLOSE] + after;
    assert key == before + [OPEN] + rest;
    hide First;
    FirstAfter(before, OPEN, rest);
    FirstAfter(tag, CLOSE, after);
    assert rest[..|tag|] == tag;
  }

  /** What is hashed is the hash tag, or the whole key when it has none. */
  lemma HashedIsTag(key: Bytes, tag: Bytes)
    ensures HasTag(key, tag) ==> Hashed(key) == tag
    ensures HasTag(key, Hashed(key)) || (Hashed(key) == key && !HasTag(key, tag))
  {
    hide First;
    if HasTag(key, tag) {
      TagPosition(key, tag);
      hide HasTag;
      var start := First(key, OPEN);
      assert key[start + 1..][..|tag|] == key[start + 1..start + 1 + |tag|];
    } else if Hashed(key) != key {
      HashedHasTag(key);
    }
  }

  lemma Around(s: Bytes, at: nat)
    requires at < |s|
    ensures s == s[..at] + [s[at]] + s[at + 1..]
  { }

  lemma Regroup(before: Bytes, tag: Bytes, after: Bytes)
    ensures before + [OPEN] + (tag + [CLOSE] + after) == before + [OPEN] + tag + [CLOSE] + after
  { }

  lemma BracesAround(key: Bytes, start: nat, end: nat)
    requires start < |key| && key[start] == OPEN
    requires end < |key| - start - 1 && key[start + 1..][end] == CLOSE
    ensures var rest := key[start + 1..]; key == key[..start] + [OPEN] + rest[..end] + [CLOSE] + rest[end + 1..]
  {
    var rest := key[start + 1..];
    Around(key, start);
    Around(rest, end);
    Regroup(key[..start], rest[..end], rest[end + 1..]);
  }

  lemma HashedHasTag(key: Bytes)
    requires Hashed(key) != key
    ensures HasTag(key, Hashed(key))
  {
    hide First;
    var start := First(key, OPEN);
    var rest := key[start + 1..];
    var end := First(rest, CLOSE);
    assert rest[..end] == key[start + 1..start + 1 + end];
    BracesAround(key, start, end);
  }

  // ----- slots

  function Slot(key: Bytes): int { (Crc(Hashed(key)) % 16384) as int }

  /** The slot is read off the division: its binary digits are the fourteen lowest coefficients of the remainder of
      what is hashed. */
  lemma SlotOfRemainder(key: Bytes, r: Poly)
    requires Remainder(Shift(Message(Hashed(key)), 16), r)
    ensures 0 <= Slot(key) < 16384
    ensures exists w: bv16 :: Slot(key) == w as int && Bits(w) == set e | e in r && e < 14
  {
    hide Message, Crc, Hashed, Bit;
    var crc := Crc(Hashed(key));
    CrcIsRemainder(Hashed(key), r);
    SlotBits(crc);
    var w := crc % 16384;
    assert Slot(key) == w as int && Bits(w) == set e | e in r && e < 14;
  }

  /** Two keys with the same hash tag share a slot, and it is the slot of the tag as a key of its own. */
  lemma SameTagSameSlot(k: Bytes, l: Bytes, tag: Bytes)
    requires HasTag(k, tag) && HasTag(l, tag)
    ensures Slot(k) == Slot(l)
    ensures OPEN !in tag ==> Slot(k) == Slot(tag)
  {
    HashedIsTag(k, tag);
    HashedIsTag(l, tag);
  }

  lemma CrcNext(s: Bytes, i: nat)
    requires i < |s|
    ensures Crc(s[..i + 1]) == Steps(Crc(s[..i]) ^ Raised(s[i]), 8)
  {
    assert s[..i + 1][..i] == s[..i];
    hide Steps;
  }

  lemma StepsFrom(word: bv16, n: nat)
    ensures Steps(word, 0) == word && Steps(word, n + 1) == Step(Steps(word, n))
  { }

  method Turn(word: bv16) returns (crc: bv16)
    ensures crc == Step(word)
  {
    if word & 0x8000 != 0 {
      crc := (word << 1) ^ 0x1021;
    } else {
      crc := word << 1;
    }
  }

  /** The inner loop. */
  method Divide8(word: bv16) returns (crc: bv16)
    ensures crc == Steps(word, 8)
  {
    StepsFrom(word, 0);
    hide Step, Steps;
    crc := word;
    for bit := 0 to 8
      invariant crc == Steps(word, bit)
    {
      StepsFrom(word, bit);
      crc := Turn(crc);
    }
  }

  /** The outer loop. */
  method Crc16(s: Bytes) returns (crc: bv16)
    ensures crc == Crc(s)
  {
    hide Crc, Steps;
    crc := 0;
    assert crc == Crc(s[..0]) by { EmptyCrc(s[..0]); }
    for i := 0 to |s|
      invariant crc == Crc(s[..i])
    {
      CrcNext(s, i);
      crc := crc ^ Raised(s[i]);
      crc := Divide8(crc);
    }
    assert s[..|s|] == s;
  }

  lemma EmptyCrc(s: Bytes)
    requires s == []
    ensures Crc(s) == 0
  { }

  /** redisKeySlot. */
  method RedisKeySlot(key: Bytes) returns (slot: int)
    ensures slot == Slot(key) && 0 <= slot < 16384
  {
    hide Crc, First;
    var tagged := key;
    var start := IndexByte(key, OPEN);
    if start >= 0 {
      var end := IndexByte(key[start + 1..], CLOSE);
      if end > 0 { tagged := key[start + 1..start + 1 + end]; }
    }
    var crc := Crc16(tagged);
    SmallSlot(crc);
    slot := (crc % 16384) as int;
  }

  // ----- atomic batches

  /** The slot an atomic batch is bound to; negative while there is none. */
  class SlotCell {
    var value: int

    constructor ()
      ensures value == -1
    {
      value := -1;
    }

    /** extendAtomicSlot. */
    method ExtendAtomicSlot(slots: seq<int>) returns (ok: bool)
      requires forall i :: 0 <= i < |slots| ==> slots[i] >= 0
      modifies this
      ensures ok <==> slots != [] && forall i :: 0 <= i < |slots| ==> slots[i] == if old(value) < 0 then slots[0] else old(value)
      ensures value == if old(value) < 0 && slots != [] then slots[0] else old(value)
    {
      if |slots| == 0 { return false; }
      for i := 0 to |slots|
        invariant value == if old(value) < 0 && i > 0 then slots[0] else old(value)
        invariant forall j :: 0 <= j < i ==> slots[j] == value
      {
        if value < 0 {
          value := slots[i];
        } else if value != slots[i] {
          return false;
        }
      }
      return true;
    }
  }

  /** The keys of an atomic batch all lie in one slot, and every command has one. */
  ghost predicate OneSlot(commands: seq<seq<Bytes>>) {
    && (forall i :: 0 <= i < |commands| ==> commands[i] != [])
    && (forall i, j, k, l :: 0 <= i < |commands| && 0 <= j < |commands[i]| && 0 <= k < |commands| && 0 <= l < |commands[k]|
          ==> Slot(commands[i][j]) == Slot(commands[k][l]))
  }

  /** The slots listed by the validation of one command. */
  method KeySlots(keys: seq<Bytes>) returns (slots: seq<int>)
    ensures |slots| == |keys| && forall j :: 0 <= j < |keys| ==> slots[j] == Slot(keys[j]) && slots[j] >= 0
  {
    hide Slot;
    slots := [];
    for j := 0 to |keys|
      invariant |slots| == j && forall l :: 0 <= l < j ==> slots[l] == Slot(keys[l]) && slots[l] >= 0
    {
      var slot := RedisKeySlot(keys[j]);
      slots := slots + [slot];
    }
  }

  /** The slot checks of RedisBatch: accepted exactly when one slot holds every key. */
  method CheckAtomic(commands: seq<seq<Bytes>>) returns (ok: bool)
    ensures ok <==> OneSlot(commands)
  {
    hide Slot;
    var cell := new SlotCell();
    for i := 0 to |commands|
      invariant i == 0 ==> cell.value == -1
      invariant i > 0 ==> cell.value >= 0 && commands[0] != [] && cell.value == Slot(commands[0][0])
      invariant forall k :: 0 <= k < i ==> commands[k] != []
      invariant forall k, l :: 0 <= k < i && 0 <= l < |commands[k]| ==> Slot(commands[k][l]) == cell.value
    {
      var slots := KeySlots(commands[i]);
      var extended := cell.ExtendAtomicSlot(slots);
      if !extended {
        assert !OneSlot(commands) by {
          if commands[i] != [] {
            var first := if i > 0 then Slot(commands[0][0]) else Slot(commands[i][0]);
            var l :| 0 <= l < |slots| && slots[l] != first;
            assert Slot(commands[i][l]) != first;
          }
        }
        return false;
      }
    }
    return true;
  }

  /** A batch whose keys all carry one hash tag is accepted. */
  lemma TaggedBatch(commands: seq<seq<Bytes>>, tag: Bytes)
    requires forall i :: 0 <= i < |commands| ==> commands[i] != [] && forall key <- commands[i] :: HasTag(key, tag)
    ensures OneSlot(commands)
  {
    hide Slot, HasTag;
    forall i, j, k, l | 0 <= i < |commands| && 0 <= j < |commands[i]| && 0 <= k < |commands| && 0 <= l < |commands[k]|
      ensures Slot(commands[i][j]) == Slot(commands[k][l])
    {
      SameTagSameSlot(commands[i][j], commands[k][l], tag);
    }
  }
}
