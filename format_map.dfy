/**
 * The Windows client's table from the server's clipboard format ids to the
 * local ones it registers (format_mappings in client/Windows/wf_cliprdr.c).
 * The table is an array of `map_capacity` slots, of which the first
 * `map_size` are in use; a Format List from the server clears it and refills
 * it, growing it by doubling.
 *
 * RegisterClipboardFormatW is a parameter `register` from names to ids. The
 * UTF-8 to UTF-16 conversion of a name is not modelled: names are opaque
 * character sequences, and a conversion is taken to succeed.
 */
module FormatMap {
  import opened Bytes
  import opened Wrappers

  /** One format of a server Format List (section 2.2.3.1 of MS-RDPECLIP). */
  datatype Format = Format(formatId: u32, formatName: Option<string>)

  /** One slot of the table. */
  datatype Mapping = Mapping(remote: u32, local: u32, name: Option<string>)

  /** A slot as calloc and clear_format_map leave it. */
  const Empty: Mapping := Mapping(0, 0, None)

  /** The table's capacity when the clipboard is set up (wf_cliprdr_init). */
  const INITIAL_CAPACITY: nat := 32

  function Empties(n: nat): (r: seq<Mapping>)
    ensures |r| == n && forall i | 0 <= i < n :: r[i] == Empty
  {
    seq(n, _ => Empty)
  }

  /** The slot a format fills: a named format gets the id its name registers as, an unnamed one keeps the server's id. */
  function MappingOf(f: Format, register: string -> u32): Mapping
  {
    match f.formatName
    case Some(n) => Mapping(f.formatId, register(n), f.formatName)
    case None => Mapping(f.formatId, f.formatId, None)
  }

  function Mappings(formats: seq<Format>, register: string -> u32): (r: seq<Mapping>)
    ensures |r| == |formats|
  {
    seq(|formats|, i requires 0 <= i < |formats| => MappingOf(formats[i], register))
  }

  /**
   * get_remote_format_id on the slots in use: the server id of the first slot
   * whose local id matches, or the local id itself when none does.
   */
  function RemoteOf(ms: seq<Mapping>, local: u32): (r: u32)
    ensures (forall i | 0 <= i < |ms| :: ms[i].local != local) ==> r == local
    ensures (exists i | 0 <= i < |ms| :: ms[i].local == local) ==>
              exists i | 0 <= i < |ms| :: ms[i].local == local && r == ms[i].remote &&
                forall j | 0 <= j < i :: ms[j].local != local
  {
    if |ms| == 0 then local
    else if ms[0].local == local then ms[0].remote
    else
      var r := RemoteOf(ms[1..], local);
      assert forall i | 1 <= i < |ms| :: ms[i] == ms[1..][i - 1];
      r
  }

  /**
   * get_local_format_id_by_name on the slots in use: the local id of the first
   * slot with exactly this name, or 0 when none has it.
   */
  function LocalByName(ms: seq<Mapping>, name: string): (r: u32)
    ensures (forall i | 0 <= i < |ms| :: ms[i].name != Some(name)) ==> r == 0
    ensures (exists i | 0 <= i < |ms| :: ms[i].name == Some(name)) ==>
              exists i | 0 <= i < |ms| :: ms[i].name == Some(name) && r == ms[i].local &&
                forall j | 0 <= j < i :: ms[j].name != Some(name)
  {
    if |ms| == 0 then 0
    else if ms[0].name == Some(name) then ms[0].local
    else
      var r := LocalByName(ms[1..], name);
      assert forall i | 1 <= i < |ms| :: ms[i] == ms[1..][i - 1];
      r
  }

  /** The first slot matching is the one both searches report. */
  lemma RemoteOfFirst(ms: seq<Mapping>, local: u32, i: nat)
    requires i < |ms| && ms[i].local == local
    requires forall j | 0 <= j < i :: ms[j].local != local
    ensures RemoteOf(ms, local) == ms[i].remote
  {
  }

  lemma LocalByNameFirst(ms: seq<Mapping>, name: string, i: nat)
    requires i < |ms| && ms[i].name == Some(name)
    requires forall j | 0 <= j < i :: ms[j].name != Some(name)
    ensures LocalByName(ms, name) == ms[i].local
  {
  }

  /**
   * After a Format List is loaded, looking a format up by its name and then
   * mapping the local id back gives the server's id, as long as no earlier
   * format ended up with the same local id (an unnamed format whose id equals
   * a registered one, or a repeated name).
   */
  lemma NameLeadsBackToServerId(formats: seq<Format>, register: string -> u32, k: nat, name: string)
    requires k < |formats| && formats[k].formatName == Some(name)
    requires forall j | 0 <= j < k :: MappingOf(formats[j], register).local != register(name)
    ensures LocalByName(Mappings(formats, register), name) == register(name)
    ensures RemoteOf(Mappings(formats, register), register(name)) == formats[k].formatId
  {
    var ms := Mappings(formats, register);
    forall j | 0 <= j < k
      ensures ms[j].name != Some(name) && ms[j].local != register(name)
    {
      assert ms[j] == MappingOf(formats[j], register);
    }
    assert ms[k] == MappingOf(formats[k], register);
    LocalByNameFirst(ms, name, k);
    RemoteOfFirst(ms, register(name), k);
  }

  /** An unnamed format maps to itself and back. */
  lemma UnnamedFormatKeepsItsId(formats: seq<Format>, register: string -> u32, k: nat)
    requires k < |formats| && formats[k].formatName.None?
    requires forall j | 0 <= j < k :: MappingOf(formats[j], register).local != formats[k].formatId
    ensures RemoteOf(Mappings(formats, register), formats[k].formatId) == formats[k].formatId
  {
    var ms := Mappings(formats, register);
    assert ms[k] == MappingOf(formats[k], register);
    forall j | 0 <= j < k
      ensures ms[j].local != formats[k].formatId
    {
      assert ms[j] == MappingOf(formats[j], register);
    }
    RemoteOfFirst(ms, formats[k].formatId, k);
  }

  /*
   * map_ensure_capacity as written grows the array with realloc, which does
   * not initialise the new slots; clear_format_map later frees the name of
   * every slot up to the capacity. Cells record whether a slot was ever set.
   */
  datatype Cell = Set(m: Mapping) | Uninit

  function GrowAsWritten(cells: seq<Cell>): (r: seq<Cell>)
    ensures |r| == 2 * |cells| && r[..|cells|] == cells
    ensures forall i | |cells| <= i < |r| :: r[i] == Uninit
  {
    cells + seq(|cells|, _ => Uninit)
  }

  /** clear_format_map frees `name` in every slot up to the capacity; that is safe only if every slot was set. */
  predicate SafeToClear(cells: seq<Cell>)
  {
    forall i | 0 <= i < |cells| :: cells[i].Set?
  }

  /** The rebuild loop of wf_cliprdr_server_format_list with the growth as written. */
  function RebuildAsWritten(cells: seq<Cell>, size: nat, ms: seq<Mapping>): (r: seq<Cell>)
    requires size < |cells|
    decreases |ms|
  {
    if |ms| == 0 then cells
    else
      var placed := cells[size := Set(ms[0])];
      var next := if size + 1 >= |placed| then GrowAsWritten(placed) else placed;
      RebuildAsWritten(next, size + 1, ms[1..])
  }

  /**
   * A list that exactly fills the table makes it grow on its last format, and
   * the second half of the grown table is never set.
   */
  lemma {:induction false} FillingListLeavesUninit(cells: seq<Cell>, size: nat, ms: seq<Mapping>)
    requires size < |cells| && size + |ms| == |cells|
    ensures var r := RebuildAsWritten(cells, size, ms);
            |r| == 2 * |cells| && forall i | |cells| <= i < |r| :: r[i] == Uninit
    decreases |ms|
  {
    var placed := cells[size := Set(ms[0])];
    if size + 1 >= |placed| {
      assert |ms[1..]| == 0;
    } else {
      FillingListLeavesUninit(placed, size + 1, ms[1..]);
    }
  }

  /**
   * With the initial 32 slots, a Format List of 32 formats leaves slots 32..63
   * uninitialised, so the clear that starts the next Format List frees them.
   */
  lemma ThirtyTwoFormatsBreakNextClear(ms: seq<Mapping>)
    requires |ms| == INITIAL_CAPACITY
    ensures !SafeToClear(RebuildAsWritten(seq(INITIAL_CAPACITY, _ => Set(Empty)), 0, ms))
  {
    var cells := seq(INITIAL_CAPACITY, _ => Set(Empty));
    FillingListLeavesUninit(cells, 0, ms);
    assert RebuildAsWritten(cells, 0, ms)[INITIAL_CAPACITY] == Uninit;
  }

  /**
   * The table with growth that initialises the new slots, as calloc does for
   * the first ones; every slot is then a real mapping and clearing is safe.
   */
  class Table {
    var slots: seq<Mapping>
    var size: nat

    ghost predicate Valid()
      reads this
    {
      size < |slots|
    }

    /** The table wf_cliprdr_init allocates: 32 zeroed slots, none in use. */
    constructor ()
      ensures Valid() && slots == Empties(INITIAL_CAPACITY) && size == 0
    {
      slots := Empties(INITIAL_CAPACITY);
      size := 0;
    }

    /**
     * map_ensure_capacity: when every slot is in use the capacity doubles;
     * when the allocation fails the table is left as it was.
     */
    method EnsureCapacity(allocOk: bool)
      modifies this`slots
      ensures if old(size) >= |old(slots)| && allocOk then slots == old(slots) + Empties(|old(slots)|)
              else slots == old(slots)
    {
      if size >= |slots| {
        if !allocOk {
          return;
        }
        slots := slots + Empties(|slots|);
      }
    }

    /** clear_format_map: every slot up to the capacity is emptied and none is in use. */
    method Clear()
      modifies this
      ensures slots == Empties(|old(slots)|) && size == 0
    {
      var i := 0;
      while i < |slots|
        invariant 0 <= i <= |slots| == |old(slots)|
        invariant forall j | 0 <= j < i :: slots[j] == Empty
      {
        slots := slots[i := Empty];
        i := i + 1;
      }
      size := 0;
    }

    /**
     * The rebuild in wf_cliprdr_server_format_list: after a Format List the
     * slots in use are exactly its formats, in order, and the rest are empty.
     */
    method Rebuild(formats: seq<Format>, register: string -> u32)
      requires Valid()
      modifies this
      ensures Valid() && size == |formats| && |slots| >= |old(slots)|
      ensures slots[..size] == Mappings(formats, register)
      ensures forall i | size <= i < |slots| :: slots[i] == Empty
    {
      Clear();
      var i := 0;
      while i < |formats|
        invariant 0 <= i <= |formats| && size == i && Valid() && |slots| >= |old(slots)|
        invariant forall j | 0 <= j < i :: slots[j] == MappingOf(formats[j], register)
        invariant forall j | i <= j < |slots| :: slots[j] == Empty
      {
        slots := slots[i := MappingOf(formats[i], register)];
        size := size + 1;
        EnsureCapacity(true);
        i := i + 1;
      }
      assert slots[..size] == Mappings(formats, register);
    }

    /** get_remote_format_id. */
    method RemoteFormatId(local: u32) returns (r: u32)
      requires size <= |slots|
      ensures r == RemoteOf(slots[..size], local)
    {
      var i := 0;
      while i < size
        invariant 0 <= i <= size
        invariant forall j | 0 <= j < i :: slots[j].local != local
      {
        if slots[i].local == local {
          RemoteOfFirst(slots[..size], local, i);
          return slots[i].remote;
        }
        i := i + 1;
      }
      return local;
    }

    /** get_local_format_id_by_name. */
    method LocalFormatIdByName(name: string) returns (r: u32)
      requires size <= |slots|
      ensures r == LocalByName(slots[..size], name)
    {
      var i := 0;
      while i < size
        invariant 0 <= i <= size
        invariant forall j | 0 <= j < i :: slots[j].name != Some(name)
      {
        if slots[i].name.Some? && slots[i].name.value == name {
          LocalByNameFirst(slots[..size], name, i);
          return slots[i].local;
        }
        i := i + 1;
      }
      return 0;
    }
  }
}
