/** How a firmware bank is named in a path reference and recovered from it. */
module BankId {
  import opened Decimal

  const LINKER_SIZE := 16

  type u32 = x: int | 0 <= x < TWO_32

  /** The "id" of a bank as text: "%d" of an unsigned value. */
  function IdText(id: u32): string {
    Print(ToInt32(id))
  }

  /** "cpe-%s" in the 16-byte linker buffer. */
  function Linker(idText: string): string {
    Truncated("cpe-" + idText, LINKER_SIZE)
  }

  datatype Cut = NoDash | After(rest: string)

  /** What follows the first '-'. */
  function AfterDash(s: string): Cut {
    if s == [] then NoDash else if s[0] == '-' then After(s[1..]) else AfterDash(s[1..])
  }

  /** (uint32_t)strtoul on a platform whose unsigned long has `word` values. */
  function ParseId(text: string, word: int): u32
    requires word > 0
  {
    StrToUL(text, word) % TWO_32
  }

  /** The 16-byte buffer holds every linker, and is filled to the last byte exactly by the ids whose signed reading
      has ten digits and a minus sign. */
  lemma LinkerFits(id: u32)
    ensures Linker(IdText(id)) == "cpe-" + IdText(id)
    ensures |Linker(IdText(id))| + 1 == LINKER_SIZE <==> TWO_31 <= id <= TWO_32 - 1_000_000_000
  {
    var i := ToInt32(id);
    var m := if i < 0 then -i else i;
    DigitsLength(m, 10);
    DigitsLength(m, 9);
    assert Pow10(1) == 10 && Pow10(3) == 1000;
    assert Pow10(5) == 100_000;
    assert Pow10(7) == 10_000_000;
    assert Pow10(9) == 1_000_000_000;
  }

  /** Every 32-bit id survives the trip through the reference, on 32-bit and on 64-bit platforms, also the ids that
      print with a second '-'. */
  lemma IdRoundTrip(id: u32, word: int)
    requires word == TWO_32 || word == TWO_64
    ensures AfterDash(Linker(IdText(id))) == After(IdText(id))
    ensures ParseId(IdText(id), word) == id
  {
    LinkerFits(id);
    DashSplits("cpe", IdText(id));
    assert "cpe" + ("-" + IdText(id)) == "cpe-" + IdText(id);
    ParseUndoesPrint(ToInt32(id), word);
  }

  lemma ParseUndoesPrint(i: int, word: int)
    requires word == TWO_32 || word == TWO_64
    requires -TWO_31 <= i < TWO_32
    ensures ParseId(Print(i), word) == i % TWO_32
  {
    UnsignedRoundTrip(i, word);
    NarrowedWord(i, word, TWO_32, if word == TWO_32 then 1 else TWO_32);
  }

  /** Narrowing a word of k * m values to m values. */
  lemma NarrowedWord(i: int, word: int, m: int, k: int)
    requires m > 0 && k > 0 && word == k * m
    ensures i % word % m == i % m
  {
    var q := i / word;
    var r := i % word;
    assert i == q * word + r;
    assert q * word == q * k * m;
    SameRemainder(r, q * k, m);
  }

  lemma SameRemainder(r: int, k: int, m: int)
    requires m > 0
    ensures (k * m + r) % m == r % m
  {
    var q := r / m;
    assert k * m + r == (k + q) * m + r % m;
    RemainderIs(k * m + r, k + q, r % m, m);
  }

  lemma RemainderIs(x: int, q: int, r: int, m: int)
    requires 0 <= r < m && x == q * m + r
    ensures x % m == r
  {
    var d := x / m - q;
    assert d * m == r - x % m;
    assert d >= 1 ==> d * m >= m;
    assert d <= -1 ==> d * m <= -m;
  }

  lemma {:induction false} DashSplits(prefix: string, rest: string)
    requires '-' !in prefix
    ensures AfterDash(prefix + ("-" + rest)) == After(rest)
  {
    var s := prefix + ("-" + rest);
    if prefix == [] {
      assert s[1..] == rest;
    } else {
      assert prefix[0] in prefix && s[1..] == prefix[1..] + ("-" + rest);
      DashSplits(prefix[1..], rest);
    }
  }

  lemma LinkerInjective(id: u32, other: u32)
    requires Linker(IdText(id)) == Linker(IdText(other))
    ensures id == other
  {
    IdRoundTrip(id, TWO_64);
    IdRoundTrip(other, TWO_64);
  }
}
