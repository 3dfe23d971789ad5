/**
 * The FORMATETC lists the Windows client exposes to OLE: the lookup its data
 * object does on a query (cliprdr_lookup_format) and the IEnumFORMATETC cursor
 * over a copied list (CliprdrEnumFORMATETC), both in
 * client/Windows/wf_cliprdr.c. A deep copy of a FORMATETC is a value copy
 * here; the COM vtables and reference counts are not modelled.
 */
module OleFormats {
  import opened Bytes
  import opened Wrappers
  import opened Win32
  import opened CliprdrPdu

  /** A FORMATETC: clipboard format, target device, aspect, index and storage medium. */
  datatype FormatEtc = FormatEtc(cfFormat: u16, device: Option<seq<byte>>, aspect: bv32, lindex: i32, tymed: bv32)

  /** A query matches an offered format when the format is equal and medium and aspect overlap. */
  predicate Matches(query: FormatEtc, offered: FormatEtc)
  {
    Bit(query.tymed, offered.tymed) && query.cfFormat == offered.cfFormat && Bit(query.aspect, offered.aspect)
  }

  /** cliprdr_lookup_format: the index of the first offered format the query matches, or -1. */
  method LookupFormat(offered: seq<FormatEtc>, query: FormatEtc) returns (r: int)
    ensures -1 <= r < |offered|
    ensures r >= 0 ==> Matches(query, offered[r]) && forall j | 0 <= j < r :: !Matches(query, offered[j])
    ensures r == -1 <==> forall j | 0 <= j < |offered| :: !Matches(query, offered[j])
  {
    var i := 0;
    while i < |offered|
      invariant 0 <= i <= |offered|
      invariant forall j | 0 <= j < i :: !Matches(query, offered[j])
    {
      if Bit(query.tymed, offered[i].tymed) && query.cfFormat == offered[i].cfFormat && Bit(query.aspect, offered[i].aspect) {
        return i;
      }
      i := i + 1;
    }
    return -1;
  }

  const LONG_MAX: int := 0x7FFF_FFFF

  /**
   * CliprdrEnumFORMATETC_Skip as written: the ULONG count is cast to LONG
   * and added to the LONG cursor before the bounds test, both wrapping to 32
   * bits, so a count of 2^31 or more, or a sum beyond LONG_MAX, passes it as
   * a negative number and the cursor is moved by the wrapped sum.
   */
  function SkipAsWritten(index: i32, count: i32, celt: u32): (r: (u32, i32))
  {
    if WrapI32(index + I32OfU32(celt)) > count then (E_FAIL, index)
    else (S_OK, WrapI32(index + celt))
  }

  /**
   * Skipping 0xFFFFFFFF entries from the start of any list succeeds and moves
   * the cursor to -1, after which Next reads the entry before the array.
   */
  lemma SkipAsWrittenGoesNegative(count: i32)
    requires count >= 0
    ensures SkipAsWritten(0, count, 0xFFFF_FFFF) == (S_OK, -1)
  {
  }

  /**
   * A count below 2^31 whose sum with the cursor passes LONG_MAX wraps the
   * sum to -2^31: Skip(0x7FFFFFFF) one entry into a one-entry list succeeds
   * and moves the cursor to -2^31.
   */
  lemma SkipAsWrittenSumWraps()
    ensures SkipAsWritten(1, 1, 0x7FFF_FFFF) == (S_OK, -0x8000_0000)
  {
    assert WrapI32(1 + I32OfU32(0x7FFF_FFFF)) == -0x8000_0000;
  }

  /** Skip with the test done on unsigned values: the cursor never leaves [0, count]. */
  function SkipOutcome(index: nat, count: nat, celt: u32): (r: (u32, nat))
    requires index <= count
    ensures r.1 <= count
    ensures r.0 == S_OK <==> index + celt <= count
    ensures r.0 == S_OK ==> r.1 == index + celt
    ensures r.0 != S_OK ==> r.0 == E_FAIL && r.1 == index
  {
    if celt > count - index then (E_FAIL, index) else (S_OK, index + celt)
  }

  /**
   * While the cursor plus the count stays within LONG_MAX neither the cast
   * nor the sum wraps, and the code as written does what SkipOutcome does.
   */
  lemma SkipAgreesBelowTwoToThe31(index: nat, count: nat, celt: u32)
    requires index <= count <= LONG_MAX && index + celt <= LONG_MAX
    ensures SkipAsWritten(index, count, celt) == (SkipOutcome(index, count, celt).0, SkipOutcome(index, count, celt).1 as i32)
  {
  }

  class Enumerator {
    var formats: seq<FormatEtc>
    var index: int

    ghost predicate Valid()
      reads this
    {
      0 <= index <= |formats| <= LONG_MAX
    }

    /** CliprdrEnumFORMATETC_New: a copy of the list with the cursor at its start. */
    constructor (fs: seq<FormatEtc>)
      requires |fs| <= LONG_MAX
      ensures Valid() && formats == fs && index == 0
    {
      formats := fs;
      index := 0;
    }

    /**
     * Next copies min(celt, remaining) entries from the cursor on, advances
     * the cursor by that many and succeeds only if all celt were copied.
     * A zero count is E_INVALIDARG.
     */
    method Next(celt: u32) returns (hr: u32, fetched: seq<FormatEtc>)
      requires Valid()
      modifies this`index
      ensures Valid()
      ensures celt == 0 ==> hr == E_INVALIDARG && fetched == [] && index == old(index)
      ensures celt > 0 ==>
                var k := if celt < |formats| - old(index) then celt else |formats| - old(index);
                fetched == formats[old(index)..old(index) + k] && index == old(index) + k &&
                (hr == if k == celt then S_OK else E_FAIL)
    {
      if celt == 0 {
        return E_INVALIDARG, [];
      }
      var copied := 0;
      fetched := [];
      while index < |formats| && copied < celt
        invariant old(index) <= index <= |formats| && copied == index - old(index) <= celt
        invariant fetched == formats[old(index)..index]
      {
        fetched := fetched + [formats[index]];
        copied := copied + 1;
        index := index + 1;
      }
      hr := if copied == celt then S_OK else E_FAIL;
    }

    /** Skip, with the bound tested without the signed cast. */
    method Skip(celt: u32) returns (hr: u32)
      requires Valid()
      modifies this`index
      ensures Valid()
      ensures (hr, index) == (SkipOutcome(old(index), |formats|, celt).0, SkipOutcome(old(index), |formats|, celt).1 as int)
    {
      if celt > |formats| - index {
        return E_FAIL;
      }
      index := index + celt;
      hr := S_OK;
    }

    /** Reset puts the cursor back at the start. */
    method Reset() returns (hr: u32)
      requires Valid()
      modifies this`index
      ensures Valid() && index == 0 && hr == S_OK
    {
      index := 0;
      hr := S_OK;
    }

    /** Clone: a new enumerator over the same list, at the same position. */
    method Clone() returns (hr: u32, e: Enumerator)
      requires Valid()
      ensures fresh(e) && e.Valid() && e.formats == formats && e.index == index && hr == S_OK
    {
      e := new Enumerator(formats);
      e.index := index;
      hr := S_OK;
    }
  }
}
