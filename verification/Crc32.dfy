/**
 CRC-32 by table: one table look-up a byte, against the division by the AUTODIN II
 polynomial one bit at a time.  The bits of each byte go in low bit first, so the register
 and the polynomial are kept reflected.
 */
module Crc32 {
  // ------------------------------------------------------ one bit at a time

  /** The reflected polynomial without its leading term. */
  const POLY: bv32 := 0xedb88320

  function Term(exponent: nat): bv32
    requires exponent < 32
  {
    1 << (31 - exponent)
  }

  /** x^26 + x^23 + x^22 + x^16 + x^12 + x^11 + x^10 + x^8 + x^7 + x^5 + x^4 + x^2 + x + 1, reflected. */
  lemma PolyIsAutodin()
    ensures POLY == Term(26) | Term(23) | Term(22) | Term(16) | Term(12) | Term(11) | Term(10)
                    | Term(8) | Term(7) | Term(5) | Term(4) | Term(2) | Term(1) | Term(0)
  {
  }

  /** The sum of two registers. */
  function Xor(x: bv32, y: bv32): bv32 { x ^ y }

  predicate Odd(x: bv32) { x & 1 == 1 }

  function Half(x: bv32): bv32 { x >> 1 }

  /** One step of the division: the register moves down, and the polynomial is taken off if a one fell out. */
  function Step(crc: bv32): bv32 {
    if Odd(crc) then Xor(Half(crc), POLY) else Half(crc)
  }

  function FeedBit(crc: bv32, bit: bool): bv32 {
    Step(Xor(crc, if bit then 1 else 0))
  }

  function Bits(b: bv8): (s: seq<bool>)
    ensures |s| == 8
  {
    [b & 1 != 0, b & 2 != 0, b & 4 != 0, b & 8 != 0, b & 16 != 0, b & 32 != 0, b & 64 != 0, b & 128 != 0]
  }

  /** The message as bits, in the order they are divided. */
  function AllBits(message: seq<bv8>): seq<bool> {
    if message == [] then [] else AllBits(message[..|message| - 1]) + Bits(message[|message| - 1])
  }

  /** The register after dividing the bits, starting from all ones. */
  function Divide(bits: seq<bool>): bv32 {
    if bits == [] then 0xffff_ffff else FeedBit(Divide(bits[..|bits| - 1]), bits[|bits| - 1])
  }

  // ----------------------------------------------------------- byte by byte

  function Step2(x: bv32): bv32 { Step(Step(x)) }
  function Step4(x: bv32): bv32 { Step2(Step2(x)) }
  function Step8(x: bv32): bv32 { Step4(Step4(x)) }

  function FeedByte(crc: bv32, b: bv8): bv32 {
    Step8(Xor(crc, b as bv32))
  }

  /** The register after a message, eight steps a byte. */
  function Register(crc: bv32, message: seq<bv8>): bv32 {
    if message == [] then crc else FeedByte(Register(crc, message[..|message| - 1]), message[|message| - 1])
  }

  lemma HalfXor(x: bv32, y: bv32)
    ensures Half(Xor(x, y)) == Xor(Half(x), Half(y))
  {
  }

  lemma OddXor(x: bv32, y: bv32)
    ensures Odd(Xor(x, y)) <==> Odd(x) != Odd(y)
  {
    assert (x ^ y) & 1 == (x & 1) ^ (y & 1);
    assert (x & 1 == 0 || x & 1 == 1) && (y & 1 == 0 || y & 1 == 1);
  }

  lemma XorAssociates(x: bv32, y: bv32, p: bv32)
    ensures Xor(Xor(x, y), p) == Xor(x, Xor(y, p))
  {
  }

  lemma XorSwap(x: bv32, y: bv32)
    ensures Xor(x, y) == Xor(y, x)
  {
  }

  lemma XorZero(x: bv32)
    ensures Xor(x, 0) == x && Xor(0, x) == x && Xor(x, x) == 0
  {
  }

  lemma XorLeft(x: bv32, y: bv32, p: bv32)
    ensures Xor(Xor(x, y), p) == Xor(Xor(x, p), y)
  {
    hide Xor;
    XorAssociates(x, y, p);
    XorAssociates(x, p, y);
    XorSwap(y, p);
  }

  lemma XorTwice(x: bv32, y: bv32, p: bv32)
    ensures Xor(x, y) == Xor(Xor(x, p), Xor(y, p))
  {
    hide Xor;
    XorAssociates(x, p, Xor(y, p));
    XorSwap(y, p);
    XorAssociates(p, p, y);
    XorZero(p);
    XorZero(y);
  }

  lemma StepLinear(x: bv32, y: bv32)
    ensures Step(Xor(x, y)) == Xor(Step(x), Step(y))
  {
    hide Xor, Half, Odd;
    HalfXor(x, y);
    OddXor(x, y);
    XorLeft(Half(x), Half(y), POLY);
    XorAssociates(Half(x), Half(y), POLY);
    XorTwice(Half(x), Half(y), POLY);
  }

  lemma Step2Linear(x: bv32, y: bv32)
    ensures Step2(Xor(x, y)) == Xor(Step2(x), Step2(y))
  {
    hide Step, Xor;
    StepLinear(x, y);
    StepLinear(Step(x), Step(y));
  }

  lemma Step8Linear(x: bv32, y: bv32)
    ensures Step8(Xor(x, y)) == Xor(Step8(x), Step8(y))
  {
    hide Step2, Xor;
    Step2Linear(x, y);
    Step2Linear(Step2(x), Step2(y));
    Step2Linear(Step4(x), Step4(y));
    Step2Linear(Step2(Step4(x)), Step2(Step4(y)));
  }

  /** Eight zeros fall out without a trace. */
  lemma Step8High(x: bv32)
    requires x & 0xff == 0
    ensures Step8(x) == x >> 8
  {
  }

  // ------------------------------------------------------------- the table

  function Pick(b: bv8, w: bv32, x: bv32, y: bv32, z: bv32): bv32 {
    if b & 3 == 0 then w else if b & 3 == 1 then x else if b & 3 == 2 then y else z
  }

  // The table, four entries a row, in four parts of sixteen rows.

  function Quarter0(b: bv8): bv32 {
    match b >> 2
    case 0 => Pick(b, 0x00000000, 0x77073096, 0xee0e612c, 0x990951ba)
    case 1 => Pick(b, 0x076dc419, 0x706af48f, 0xe963a535, 0x9e6495a3)
    case 2 => Pick(b, 0x0edb8832, 0x79dcb8a4, 0xe0d5e91e, 0x97d2d988)
    case 3 => Pick(b, 0x09b64c2b, 0x7eb17cbd, 0xe7b82d07, 0x90bf1d91)
    case 4 => Pick(b, 0x1db71064, 0x6ab020f2, 0xf3b97148, 0x84be41de)
    case 5 => Pick(b, 0x1adad47d, 0x6ddde4eb, 0xf4d4b551, 0x83d385c7)
    case 6 => Pick(b, 0x136c9856, 0x646ba8c0, 0xfd62f97a, 0x8a65c9ec)
    case 7 => Pick(b, 0x14015c4f, 0x63066cd9, 0xfa0f3d63, 0x8d080df5)
    case 8 => Pick(b, 0x3b6e20c8, 0x4c69105e, 0xd56041e4, 0xa2677172)
    case 9 => Pick(b, 0x3c03e4d1, 0x4b04d447, 0xd20d85fd, 0xa50ab56b)
    case 10 => Pick(b, 0x35b5a8fa, 0x42b2986c, 0xdbbbc9d6, 0xacbcf940)
    case 11 => Pick(b, 0x32d86ce3, 0x45df5c75, 0xdcd60dcf, 0xabd13d59)
    case 12 => Pick(b, 0x26d930ac, 0x51de003a, 0xc8d75180, 0xbfd06116)
    case 13 => Pick(b, 0x21b4f4b5, 0x56b3c423, 0xcfba9599, 0xb8bda50f)
    case 14 => Pick(b, 0x2802b89e, 0x5f058808, 0xc60cd9b2, 0xb10be924)
    case _ => Pick(b, 0x2f6f7c87, 0x58684c11, 0xc1611dab, 0xb6662d3d)
  }

  function Quarter1(b: bv8): bv32 {
    match b >> 2
    case 16 => Pick(b, 0x76dc4190, 0x01db7106, 0x98d220bc, 0xefd5102a)
    case 17 => Pick(b, 0x71b18589, 0x06b6b51f, 0x9fbfe4a5, 0xe8b8d433)
    case 18 => Pick(b, 0x7807c9a2, 0x0f00f934, 0x9609a88e, 0xe10e9818)
    case 19 => Pick(b, 0x7f6a0dbb, 0x086d3d2d, 0x91646c97, 0xe6635c01)
    case 20 => Pick(b, 0x6b6b51f4, 0x1c6c6162, 0x856530d8, 0xf262004e)
    case 21 => Pick(b, 0x6c0695ed, 0x1b01a57b, 0x8208f4c1, 0xf50fc457)
    case 22 => Pick(b, 0x65b0d9c6, 0x12b7e950, 0x8bbeb8ea, 0xfcb9887c)
    case 23 => Pick(b, 0x62dd1ddf, 0x15da2d49, 0x8cd37cf3, 0xfbd44c65)
    case 24 => Pick(b, 0x4db26158, 0x3ab551ce, 0xa3bc0074, 0xd4bb30e2)
    case 25 => Pick(b, 0x4adfa541, 0x3dd895d7, 0xa4d1c46d, 0xd3d6f4fb)
    case 26 => Pick(b, 0x4369e96a, 0x346ed9fc, 0xad678846, 0xda60b8d0)
    case 27 => Pick(b, 0x44042d73, 0x33031de5, 0xaa0a4c5f, 0xdd0d7cc9)
    case 28 => Pick(b, 0x5005713c, 0x270241aa, 0xbe0b1010, 0xc90c2086)
    case 29 => Pick(b, 0x5768b525, 0x206f85b3, 0xb966d409, 0xce61e49f)
    case 30 => Pick(b, 0x5edef90e, 0x29d9c998, 0xb0d09822, 0xc7d7a8b4)
    case _ => Pick(b, 0x59b33d17, 0x2eb40d81, 0xb7bd5c3b, 0xc0ba6cad)
  }

  function Quarter2(b: bv8): bv32 {
    match b >> 2
    case 32 => Pick(b, 0xedb88320, 0x9abfb3b6, 0x03b6e20c, 0x74b1d29a)
    case 33 => Pick(b, 0xead54739, 0x9dd277af, 0x04db2615, 0x73dc1683)
    case 34 => Pick(b, 0xe3630b12, 0x94643b84, 0x0d6d6a3e, 0x7a6a5aa8)
    case 35 => Pick(b, 0xe40ecf0b, 0x9309ff9d, 0x0a00ae27, 0x7d079eb1)
    case 36 => Pick(b, 0xf00f9344, 0x8708a3d2, 0x1e01f268, 0x6906c2fe)
    case 37 => Pick(b, 0xf762575d, 0x806567cb, 0x196c3671, 0x6e6b06e7)
    case 38 => Pick(b, 0xfed41b76, 0x89d32be0, 0x10da7a5a, 0x67dd4acc)
    case 39 => Pick(b, 0xf9b9df6f, 0x8ebeeff9, 0x17b7be43, 0x60b08ed5)
    case 40 => Pick(b, 0xd6d6a3e8, 0xa1d1937e, 0x38d8c2c4, 0x4fdff252)
    case 41 => Pick(b, 0xd1bb67f1, 0xa6bc5767, 0x3fb506dd, 0x48b2364b)
    case 42 => Pick(b, 0xd80d2bda, 0xaf0a1b4c, 0x36034af6, 0x41047a60)
    case 43 => Pick(b, 0xdf60efc3, 0xa867df55, 0x316e8eef, 0x4669be79)
    case 44 => Pick(b, 0xcb61b38c, 0xbc66831a, 0x256fd2a0, 0x5268e236)
    case 45 => Pick(b, 0xcc0c7795, 0xbb0b4703, 0x220216b9, 0x5505262f)
    case 46 => Pick(b, 0xc5ba3bbe, 0xb2bd0b28, 0x2bb45a92, 0x5cb36a04)
    case _ => Pick(b, 0xc2d7ffa7, 0xb5d0cf31, 0x2cd99e8b, 0x5bdeae1d)
  }

  function Quarter3(b: bv8): bv32 {
    match b >> 2
    case 48 => Pick(b, 0x9b64c2b0, 0xec63f226, 0x756aa39c, 0x026d930a)
    case 49 => Pick(b, 0x9c0906a9, 0xeb0e363f, 0x72076785, 0x05005713)
    case 50 => Pick(b, 0x95bf4a82, 0xe2b87a14, 0x7bb12bae, 0x0cb61b38)
    case 51 => Pick(b, 0x92d28e9b, 0xe5d5be0d, 0x7cdcefb7, 0x0bdbdf21)
    case 52 => Pick(b, 0x86d3d2d4, 0xf1d4e242, 0x68ddb3f8, 0x1fda836e)
    case 53 => Pick(b, 0x81be16cd, 0xf6b9265b, 0x6fb077e1, 0x18b74777)
    case 54 => Pick(b, 0x88085ae6, 0xff0f6a70, 0x66063bca, 0x11010b5c)
    case 55 => Pick(b, 0x8f659eff, 0xf862ae69, 0x616bffd3, 0x166ccf45)
    case 56 => Pick(b, 0xa00ae278, 0xd70dd2ee, 0x4e048354, 0x3903b3c2)
    case 57 => Pick(b, 0xa7672661, 0xd06016f7, 0x4969474d, 0x3e6e77db)
    case 58 => Pick(b, 0xaed16a4a, 0xd9d65adc, 0x40df0b66, 0x37d83bf0)
    case 59 => Pick(b, 0xa9bcae53, 0xdebb9ec5, 0x47b2cf7f, 0x30b5ffe9)
    case 60 => Pick(b, 0xbdbdf21c, 0xcabac28a, 0x53b39330, 0x24b4a3a6)
    case 61 => Pick(b, 0xbad03605, 0xcdd70693, 0x54de5729, 0x23d967bf)
    case 62 => Pick(b, 0xb3667a2e, 0xc4614ab8, 0x5d681b02, 0x2a6f2b94)
    case _ => Pick(b, 0xb40bbe37, 0xc30c8ea1, 0x5a05df1b, 0x2d02ef8d)
  }

  function TableAt(b: bv8): bv32 {
    if b >> 6 == 0 then Quarter0(b) else if b >> 6 == 1 then Quarter1(b) else if b >> 6 == 2 then Quarter2(b)
        else Quarter3(b)
  }

  function If(on: bool, c: bv32): bv32 {
    if on then c else 0
  }

  /** The sum of what the set bits make by themselves. */
  function SumOfBits(b: bv8): bv32 {
    Xor(Xor(Xor(If(b & 1 != 0, 0x77073096), If(b & 2 != 0, 0xee0e612c)),
            Xor(If(b & 4 != 0, 0x076dc419), If(b & 8 != 0, 0x0edb8832))),
        Xor(Xor(If(b & 16 != 0, 0x1db71064), If(b & 32 != 0, 0x3b6e20c8)),
            Xor(If(b & 64 != 0, 0x76dc4190), If(b & 128 != 0, 0xedb88320))))
  }

  lemma Quarter0IsSum(b: bv8)
    requires b >> 6 == 0
    ensures Quarter0(b) == SumOfBits(b)
  {
  }

  lemma Quarter1IsSum(b: bv8)
    requires b >> 6 == 1
    ensures Quarter1(b) == SumOfBits(b)
  {
  }

  lemma Quarter2IsSum(b: bv8)
    requires b >> 6 == 2
    ensures Quarter2(b) == SumOfBits(b)
  {
  }

  lemma Quarter3IsSum(b: bv8)
    requires b >> 6 == 3
    ensures Quarter3(b) == SumOfBits(b)
  {
  }

  lemma BitAlone(b: bv8)
    ensures Step8((b & 1) as bv32) == If(b & 1 != 0, 0x77073096)
    ensures Step8((b & 2) as bv32) == If(b & 2 != 0, 0xee0e612c)
    ensures Step8((b & 4) as bv32) == If(b & 4 != 0, 0x076dc419)
    ensures Step8((b & 8) as bv32) == If(b & 8 != 0, 0x0edb8832)
    ensures Step8((b & 16) as bv32) == If(b & 16 != 0, 0x1db71064)
    ensures Step8((b & 32) as bv32) == If(b & 32 != 0, 0x3b6e20c8)
    ensures Step8((b & 64) as bv32) == If(b & 64 != 0, 0x76dc4190)
    ensures Step8((b & 128) as bv32) == If(b & 128 != 0, 0xedb88320)
  {
  }

  lemma BitsTogether(b: bv8, b0: bv32, b1: bv32, b2: bv32, b3: bv32, b4: bv32, b5: bv32, b6: bv32, b7: bv32)
    requires b0 == (b & 1) as bv32 && b1 == (b & 2) as bv32 && b2 == (b & 4) as bv32 && b3 == (b & 8) as bv32
    requires b4 == (b & 16) as bv32 && b5 == (b & 32) as bv32 && b6 == (b & 64) as bv32 && b7 == (b & 128) as bv32
    ensures b as bv32 == Xor(Xor(Xor(b0, b1), Xor(b2, b3)), Xor(Xor(b4, b5), Xor(b6, b7)))
  {
  }

  lemma StepsAreSum(b: bv8)
    ensures Step8(b as bv32) == SumOfBits(b)
  {
    hide Step8, If, Xor;
    var b0, b1, b2, b3 := (b & 1) as bv32, (b & 2) as bv32, (b & 4) as bv32, (b & 8) as bv32;
    var b4, b5, b6, b7 := (b & 16) as bv32, (b & 32) as bv32, (b & 64) as bv32, (b & 128) as bv32;
    BitsTogether(b, b0, b1, b2, b3, b4, b5, b6, b7);
    BitAlone(b);
    Step8Linear(b0, b1);
    Step8Linear(b2, b3);
    Step8Linear(b4, b5);
    Step8Linear(b6, b7);
    Step8Linear(Xor(b0, b1), Xor(b2, b3));
    Step8Linear(Xor(b4, b5), Xor(b6, b7));
    Step8Linear(Xor(Xor(b0, b1), Xor(b2, b3)), Xor(Xor(b4, b5), Xor(b6, b7)));
  }

  /** Each entry is what eight steps make of its index. */
  lemma TableIsEightSteps(b: bv8)
    ensures TableAt(b) == Step8(b as bv32)
  {
    hide Quarter0, Quarter1, Quarter2, Quarter3, SumOfBits, Step8;
    StepsAreSum(b);
    TopBits(b);
    if b >> 6 == 0 { Quarter0IsSum(b); }
    else if b >> 6 == 1 { Quarter1IsSum(b); }
    else if b >> 6 == 2 { Quarter2IsSum(b); }
    else { Quarter3IsSum(b); }
  }

  lemma TopBits(b: bv8)
    ensures b >> 6 == 0 || b >> 6 == 1 || b >> 6 == 2 || b >> 6 == 3
  {
  }

  /** One step of the table-driven loop. */
  function LookUp(crc: bv32, b: bv8): bv32 {
    Xor(crc >> 8, TableAt((Xor(crc, b as bv32) & 0xff) as bv8))
  }

  lemma HighAndLow(x: bv32)
    ensures x == Xor(x & 0xffff_ff00, x & 0xff) && (x & 0xffff_ff00) & 0xff == 0
    ensures (x & 0xffff_ff00) >> 8 == x >> 8 && ((x & 0xff) as bv8) as bv32 == x & 0xff
  {
  }

  lemma ByteShiftsOut(crc: bv32, b: bv8)
    ensures Xor(crc, b as bv32) >> 8 == crc >> 8
  {
  }

  /** The look-up does the eight steps at once. */
  lemma LookUpIsFeed(crc: bv32, b: bv8)
    ensures LookUp(crc, b) == FeedByte(crc, b)
  {
    hide Step8, Xor, TableAt;
    var x := Xor(crc, b as bv32);
    HighAndLow(x);
    ByteShiftsOut(crc, b);
    Step8Linear(x & 0xffff_ff00, x & 0xff);
    Step8High(x & 0xffff_ff00);
    TableIsEightSteps((x & 0xff) as bv8);
  }

  // ---------------------------------------------------- bytes against bits

  /** Feeding the low bit is one step of the register with the whole byte added, but for the bits to come. */
  lemma BitThenRest(crc: bv32, b: bv8)
    ensures Xor(FeedBit(crc, b & 1 != 0), (b >> 1) as bv32) == Step(Xor(crc, b as bv32))
  {
    hide Step, Xor;
    var low: bv32 := if b & 1 != 0 then 1 else 0;
    LowAndRest(b);
    XorAssociates(crc, low, (b & 0xfe) as bv32);
    StepLinear(Xor(crc, low), (b & 0xfe) as bv32);
  }

  lemma LowAndRest(b: bv8)
    ensures b as bv32 == Xor(if b & 1 != 0 then 1 else 0, (b & 0xfe) as bv32)
    ensures Step((b & 0xfe) as bv32) == (b >> 1) as bv32
  {
  }

  lemma BitsByShift(b: bv8)
    ensures (b >> 1) & 1 != 0 <==> b & 2 != 0
    ensures (b >> 2) & 1 != 0 <==> b & 4 != 0
    ensures (b >> 3) & 1 != 0 <==> b & 8 != 0
    ensures (b >> 4) & 1 != 0 <==> b & 16 != 0
    ensures (b >> 5) & 1 != 0 <==> b & 32 != 0
    ensures (b >> 6) & 1 != 0 <==> b & 64 != 0
    ensures (b >> 7) & 1 != 0 <==> b & 128 != 0
    ensures (b >> 1) >> 1 == b >> 2 && (b >> 2) >> 1 == b >> 3 && (b >> 3) >> 1 == b >> 4 && (b >> 4) >> 1 == b >> 5
    ensures (b >> 5) >> 1 == b >> 6 && (b >> 6) >> 1 == b >> 7 && (b >> 7) >> 1 == 0
  {
  }

  /** Dividing by a byte's eight bits is feeding the byte. */
  lemma EightBits(crc: bv32, b: bv8, f: seq<bv32>)
    requires |f| == 9 && f[0] == crc && forall k :: 0 <= k < 8 ==> f[k + 1] == FeedBit(f[k], Bits(b)[k])
    ensures f[8] == FeedByte(crc, b)
  {
    hide Step, Xor, FeedBit;
    BitsByShift(b);
    assert f[1] == FeedBit(f[0], b & 1 != 0) && f[2] == FeedBit(f[1], b & 2 != 0) && f[3] == FeedBit(f[2], b & 4 != 0);
    assert f[4] == FeedBit(f[3], b & 8 != 0) && f[5] == FeedBit(f[4], b & 16 != 0)
        && f[6] == FeedBit(f[5], b & 32 != 0);
    assert f[7] == FeedBit(f[6], b & 64 != 0) && f[8] == FeedBit(f[7], b & 128 != 0);
    BitThenRest(f[0], b);
    BitThenRest(f[1], b >> 1);
    BitThenRest(f[2], b >> 2);
    BitThenRest(f[3], b >> 3);
    BitThenRest(f[4], b >> 4);
    BitThenRest(f[5], b >> 5);
    BitThenRest(f[6], b >> 6);
    BitThenRest(f[7], b >> 7);
    XorZero(f[8]);
  }

  lemma DivideMore(bits: seq<bool>, bit: bool)
    ensures Divide(bits + [bit]) == FeedBit(Divide(bits), bit)
  {
    assert (bits + [bit])[..|bits|] == bits;
  }

  lemma DivideByte(bits: seq<bool>, b: bv8)
    ensures Divide(bits + Bits(b)) == FeedByte(Divide(bits), b)
  {
    hide FeedByte, FeedBit, Divide, Bits;
    var t := Bits(b);
    var f := seq(9, k requires 0 <= k <= 8 => Divide(bits + t[..k]));
    assert bits + t[..0] == bits && bits + t[..8] == bits + t;
    forall k | 0 <= k < 8 ensures f[k + 1] == FeedBit(f[k], t[k]) {
      assert bits + t[..k + 1] == (bits + t[..k]) + [t[k]];
      DivideMore(bits + t[..k], t[k]);
    }
    EightBits(Divide(bits), b, f);
  }

  /** Byte by byte or bit by bit, the register comes out the same. */
  lemma {:induction false} RegisterIsDivision(message: seq<bv8>)
    ensures Register(0xffff_ffff, message) == Divide(AllBits(message))
  {
    hide FeedByte, FeedBit, Bits;
    if message != [] {
      RegisterIsDivision(message[..|message| - 1]);
      DivideByte(AllBits(message[..|message| - 1]), message[|message| - 1]);
    }
  }

  /** The checksum: the complement of what the division leaves. */
  method Crc32(buf: seq<bv8>) returns (cval: bv32)
    ensures cval == !Divide(AllBits(buf))
  {
    hide FeedByte, LookUp, Divide;
    var crc: bv32, total: bv32, i := 0xffff_ffff, 0, 0;
    while i < |buf|
      invariant 0 <= i <= |buf| && crc == Register(0xffff_ffff, buf[..i])
    {
      LookUpIsFeed(crc, buf[i]);
      assert buf[..i + 1][..i] == buf[..i];
      crc := LookUp(crc, buf[i]);
      total := LookUp(total, buf[i]);
      i := i + 1;
    }
    assert buf[..i] == buf;
    RegisterIsDivision(buf);
    cval := !crc;
  }

  // -------------------------------------------------- checking a checksum

  function Step32(x: bv32): bv32 { Step8(Step8(Step8(Step8(x)))) }

  function LowByte(w: bv32): bv8 { (w & 0xff) as bv8 }

  function Upper(w: bv32): bv32 { w >> 8 }

  function Top(w: bv32): bv32 { w & 0xffff_ff00 }

  /** Four bytes, the low one first. */
  function LowFirst(w: bv32): seq<bv8> {
    [LowByte(w), LowByte(Upper(w)), LowByte(Upper(Upper(w))), LowByte(Upper(Upper(Upper(w))))]
  }

  lemma TopAndLow(w: bv32)
    ensures w == Xor(LowByte(w) as bv32, Top(w)) && Top(w) & 0xff == 0 && Top(w) >> 8 == Upper(w)
  {
  }

  lemma TopShiftsOut(w: bv32)
    ensures Step8(Top(w)) == Upper(w)
  {
    hide Step8;
    TopAndLow(w);
    Step8High(Top(w));
  }

  lemma ByteThenRest(crc: bv32, w: bv32)
    ensures Xor(FeedByte(crc, LowByte(w)), Upper(w)) == Step8(Xor(crc, w))
  {
    hide Step8, Xor, LowByte, Upper, Top;
    TopAndLow(w);
    XorAssociates(crc, LowByte(w) as bv32, Top(w));
    Step8Linear(Xor(crc, LowByte(w) as bv32), Top(w));
    TopShiftsOut(w);
  }

  lemma FourOut(w: bv32)
    ensures Upper(Upper(Upper(Upper(w)))) == 0
  {
  }

  lemma RegisterMore(crc: bv32, message: seq<bv8>, b: bv8)
    ensures Register(crc, message + [b]) == FeedByte(Register(crc, message), b)
  {
    assert (message + [b])[..|message|] == message;
  }

  /** Feeding four bytes is 32 steps from the sum of the register and the word they make. */
  lemma FourBytes(crc: bv32, w: bv32)
    ensures Register(crc, LowFirst(w)) == Step32(Xor(crc, w))
  {
    hide Step8, Xor, FeedByte, Register, LowByte, Upper;
    var s := LowFirst(w);
    var r1 := FeedByte(crc, s[0]);
    var r2 := FeedByte(r1, s[1]);
    var r3 := FeedByte(r2, s[2]);
    var r4 := FeedByte(r3, s[3]);
    RegisterOfFour(crc, s);
    FourOut(w);
    ByteThenRest(crc, w);
    ByteThenRest(r1, Upper(w));
    ByteThenRest(r2, Upper(Upper(w)));
    ByteThenRest(r3, Upper(Upper(Upper(w))));
    XorZero(r4);
  }

  lemma RegisterOfFour(crc: bv32, s: seq<bv8>)
    requires |s| == 4
    ensures Register(crc, s) == FeedByte(FeedByte(FeedByte(FeedByte(crc, s[0]), s[1]), s[2]), s[3])
  {
    RegisterOfNone(crc);
    hide FeedByte, Register;
    RegisterMore(crc, [], s[0]);
    RegisterMore(crc, [] + [s[0]], s[1]);
    RegisterMore(crc, [] + [s[0]] + [s[1]], s[2]);
    RegisterMore(crc, [] + [s[0]] + [s[1]] + [s[2]], s[3]);
    assert s == [] + [s[0]] + [s[1]] + [s[2]] + [s[3]];
  }

  lemma RegisterOfNone(crc: bv32)
    ensures Register(crc, []) == crc
  {
  }

  lemma {:induction false} RegisterAppend(crc: bv32, a: seq<bv8>, b: seq<bv8>)
    ensures Register(crc, a + b) == Register(Register(crc, a), b)
  {
    hide FeedByte;
    if b == [] {
      assert a + b == a;
    } else {
      var n := |b| - 1;
      RegisterAppend(crc, a, b[..n]);
      assert a + b == (a + b[..n]) + [b[n]];
      RegisterMore(crc, a + b[..n], b[n]);
    }
  }

  lemma OnesRunOut()
    ensures Step32(0xffff_ffff) == 0xdebb_20e3
  {
    assert Step8(0xffff_ffff) == 0x2dfd1072;
    assert Step8(0x2dfd1072) == 0xbe26ed00;
    assert Step8(0xbe26ed00) == 0xbe26ed;
    assert Step8(0xbe26ed) == 0xdebb20e3;
  }

  /** Whatever the message, running on over its own checksum leaves the same remainder. */
  lemma MessageWithChecksum(message: seq<bv8>)
    ensures var crc := !Divide(AllBits(message));
      Register(0xffff_ffff, message + LowFirst(crc)) == 0xdebb_20e3
  {
    hide Step32, Register, Divide, LowFirst;
    var r := Register(0xffff_ffff, message);
    RegisterIsDivision(message);
    RegisterAppend(0xffff_ffff, message, LowFirst(!r));
    FourBytes(r, !r);
    OwnComplement(r);
    OnesRunOut();
  }

  lemma OwnComplement(r: bv32)
    ensures Xor(r, !r) == 0xffff_ffff
  {
  }

  // ------------------------------------------------------ detecting changes

  lemma StepInjective(x: bv32, y: bv32)
    ensures Step(x) == Step(y) ==> x == y
  {
  }

  lemma Step32Injective(x: bv32, y: bv32)
    ensures Step32(x) == Step32(y) ==> x == y
  {
    hide Step8;
    Step8Injective(x, y);
    Step8Injective(Step8(x), Step8(y));
    Step8Injective(Step8(Step8(x)), Step8(Step8(y)));
    Step8Injective(Step8(Step8(Step8(x))), Step8(Step8(Step8(y))));
  }

  lemma Step8Injective(x: bv32, y: bv32)
    ensures Step8(x) == Step8(y) ==> x == y
  {
    hide Step2;
    Step2Injective(x, y);
    Step2Injective(Step2(x), Step2(y));
    Step2Injective(Step4(x), Step4(y));
    Step2Injective(Step2(Step4(x)), Step2(Step4(y)));
  }

  lemma Step2Injective(x: bv32, y: bv32)
    ensures Step2(x) == Step2(y) ==> x == y
  {
    hide Step;
    StepInjective(x, y);
    StepInjective(Step(x), Step(y));
  }

  lemma XorInjective(x: bv32, y: bv32, p: bv32)
    ensures Xor(x, p) == Xor(y, p) ==> x == y
    ensures Xor(p, x) == Xor(p, y) ==> x == y
  {
  }

  lemma {:induction false} RegisterInjective(c1: bv32, c2: bv32, message: seq<bv8>)
    ensures Register(c1, message) == Register(c2, message) ==> c1 == c2
  {
    hide Step8, Xor;
    if message != [] {
      var n := |message| - 1;
      RegisterInjective(c1, c2, message[..n]);
      var r1, r2 := Register(c1, message[..n]), Register(c2, message[..n]);
      Step8Injective(Xor(r1, message[n] as bv32), Xor(r2, message[n] as bv32));
      XorInjective(r1, r2, message[n] as bv32);
    }
  }

  /** Messages that differ only within four bytes in a row have different checksums. */
  lemma FourByteChangeShows(before: seq<bv8>, w1: bv32, w2: bv32, after: seq<bv8>)
    requires w1 != w2
    ensures !Divide(AllBits(before + LowFirst(w1) + after)) != !Divide(AllBits(before + LowFirst(w2) + after))
  {
    hide Step32, Register, Divide, LowFirst, Xor, AllBits;
    var r := Register(0xffff_ffff, before);
    RegisterIsDivision(before + LowFirst(w1) + after);
    RegisterIsDivision(before + LowFirst(w2) + after);
    RegisterAppend(0xffff_ffff, before + LowFirst(w1), after);
    RegisterAppend(0xffff_ffff, before + LowFirst(w2), after);
    RegisterAppend(0xffff_ffff, before, LowFirst(w1));
    RegisterAppend(0xffff_ffff, before, LowFirst(w2));
    FourBytes(r, w1);
    FourBytes(r, w2);
    Step32Injective(Xor(r, w1), Xor(r, w2));
    XorInjective(w1, w2, r);
    RegisterInjective(Register(r, LowFirst(w1)), Register(r, LowFirst(w2)), after);
    NotInjective(Register(0xffff_ffff, before + LowFirst(w1) + after),
        Register(0xffff_ffff, before + LowFirst(w2) + after));
  }

  lemma NotInjective(x: bv32, y: bv32)
    ensures !x == !y ==> x == y
  {
  }

  // -------------------------------------------------------- the check value

  lemma FirstThree()
    ensures FeedByte(0xffff_ffff, 0x31) == 0x7c23_1048
    ensures FeedByte(0x7c23_1048, 0x32) == 0xb0ac_bb32
    ensures FeedByte(0xb0ac_bb32, 0x33) == 0x77b7_9c2d
  {
  }

  lemma SecondThree()
    ensures FeedByte(0x77b7_9c2d, 0x34) == 0x641c_1f5c
    ensures FeedByte(0x641c_1f5c, 0x35) == 0x340a_c5e3
    ensures FeedByte(0x340a_c5e3, 0x36) == 0xf68d_2c9e
  {
  }

  lemma LastThree()
    ensures FeedByte(0xf68d_2c9e, 0x37) == 0xaffc_9660
    ensures FeedByte(0xaffc_9660, 0x38) == 0x651f_2550
    ensures FeedByte(0x651f_2550, 0x39) == 0x340b_c6d9
  {
  }

  /** The message "123456789" has the checksum that is published for this code. */
  lemma CheckValue()
    ensures var message: seq<bv8> := [0x31, 0x32, 0x33, 0x34, 0x35, 0x36, 0x37, 0x38, 0x39];
      !Register(0xffff_ffff, message) == 0xcbf4_3926 && !Divide(AllBits(message)) == 0xcbf4_3926
  {
    var message: seq<bv8> := [0x31, 0x32, 0x33, 0x34, 0x35, 0x36, 0x37, 0x38, 0x39];
    hide FeedByte, Register, Divide;
    FirstThree();
    SecondThree();
    LastThree();
    NextByte(message, 0, 0xffff_ffff);
    NextByte(message, 1, 0x7c23_1048);
    NextByte(message, 2, 0xb0ac_bb32);
    NextByte(message, 3, 0x77b7_9c2d);
    NextByte(message, 4, 0x641c_1f5c);
    NextByte(message, 5, 0x340a_c5e3);
    NextByte(message, 6, 0xf68d_2c9e);
    NextByte(message, 7, 0xaffc_9660);
    NextByte(message, 8, 0x651f_2550);
    assert message[..9] == message;
    RegisterIsDivision(message);
  }

  lemma NextByte(message: seq<bv8>, i: nat, crc: bv32)
    requires i < |message| && (i == 0 ==> crc == 0xffff_ffff)
    requires i > 0 ==> Register(0xffff_ffff, message[..i]) == crc
    ensures Register(0xffff_ffff, message[..i + 1]) == FeedByte(crc, message[i])
  {
    hide FeedByte;
    assert message[..i + 1][..i] == message[..i];
    assert message[..0] == [];
  }
}
