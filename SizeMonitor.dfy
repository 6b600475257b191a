/** The byte-size monitor handler: a reading in bytes is shown in the
    largest binary unit (b, kb, mb, gb, tb, pb) that keeps it below 1024
    of that unit. The unit is found by walking a table of thresholds in
    ascending order and taking the first threshold above the reading. */
module SizeMonitor {
  import opened Wrappers

  const LongMax: int := 0x7FFF_FFFF_FFFF_FFFF
  const LongMin: int := -0x8000_0000_0000_0000

  /** A signed 64-bit integer. */
  type Long = x: int | LongMin <= x <= LongMax

  /** One row of the unit table: readings below `key` (and not below the
      previous row's key) are shown in unit `name`. */
  datatype Entry = Entry(key: int, name: string)

  /** The table in the order the constructor adds it. */
  const UnitTable: seq<Entry> := [
    Entry(1024, "unit.size.b"),
    Entry(1048576, "unit.size.kb"),
    Entry(1073741824, "unit.size.mb"),
    Entry(1099511627776, "unit.size.gb"),
    Entry(1125899906842624, "unit.size.tb"),
    Entry(LongMax, "unit.size.pb")
  ]

  /** A reading as the exact quotient `bytes / divisor`; the handler keeps
      it as a double, which is not modelled. */
  datatype Reading = Reading(bytes: int, divisor: int)

  function Pow1024(i: nat): (r: nat)
    ensures r >= 1
  {
    if i == 0 then 1 else 1024 * Pow1024(i - 1)
  }

  /** Index of the first row whose key is strictly greater than `x`. */
  function FirstAbove(t: seq<Entry>, x: int): (r: Option<nat>)
    ensures r.Some? ==> r.value < |t| && x < t[r.value].key
    ensures r.Some? ==> forall j :: 0 <= j < r.value ==> t[j].key <= x
    ensures r.None? ==> forall j :: 0 <= j < |t| ==> t[j].key <= x
  {
    if t == [] then None
    else if x < t[0].key then Some(0)
    else match FirstAbove(t[1..], x)
      case None => None
      case Some(i) => Some(i + 1)
  }

  /** The characterisation of FirstAbove pins down its result. */
  lemma FirstAboveAt(t: seq<Entry>, x: int, i: nat)
    requires i < |t| && x < t[i].key
    requires forall j :: 0 <= j < i ==> t[j].key <= x
    ensures FirstAbove(t, x) == Some(i)
  {
  }

  ghost predicate Ascending(t: seq<Entry>) {
    forall i, j :: 0 <= i < j < |t| ==> t[i].key < t[j].key
  }

  /** The unit of bucket `i` is 1024^i bytes. */
  function Divisor(i: nat): (d: nat)
    requires i < |UnitTable|
    ensures d >= 1
  {
    Pow1024(i)
  }

  /** The divisor the handler computes for row `i`: the row key over
      `(double)1024`. The key is converted to double first. The keys up to
      1024^5 are multiples of 1024 below 2^53, so they convert exactly and
      the quotient is exact. long.MaxValue = 2^63 - 1 has no double
      representation and rounds to the nearest double, 2^63; divided by
      1024 that gives 2^53, the divisor of the last row. */
  function WrittenDivisor(i: nat): (d: int)
    requires i < |UnitTable|
    ensures i < |UnitTable| - 1 ==> d * 1024 == UnitTable[i].key
    ensures i == |UnitTable| - 1 ==> d * 1024 == UnitTable[i].key + 1
  {
    if i == |UnitTable| - 1 then 0x20_0000_0000_0000 else UnitTable[i].key / 1024
  }

  class SizeMonitorHandler {
    /** The tags of the monitor; this constructor never sets them. */
    const category: Option<seq<string>>
    const title: string
    const unitMapping: seq<Entry> := UnitTable
    /** The unit label of the last reading; unset before the first one. */
    var unit: Option<string>
    var value: Reading

    constructor (title: string)
      ensures this.title == title && category == None
      ensures unit == None && value == Reading(0, 1)
    {
      this.title := title;
      category := None;
      unit := None;
      value := Reading(0, 1);
    }

    /** Takes a reading in bytes and picks its unit: the name of the first
        table row whose key is greater than the reading; when no row is,
        the previous unit and value stay. */
    method Handler(input: Long)
      modifies this
      ensures FirstAbove(unitMapping, input).None? ==> unit == old(unit) && value == old(value)
      ensures FirstAbove(unitMapping, input).Some? ==>
                var i := FirstAbove(unitMapping, input).value;
                unit == Some(unitMapping[i].name) && value == Reading(input, Divisor(i))
    {
      var i := 0;
      while i < |unitMapping|
        invariant 0 <= i <= |unitMapping|
        invariant forall j :: 0 <= j < i ==> unitMapping[j].key <= input
        invariant unit == old(unit) && value == old(value)
      {
        if input >= unitMapping[i].key {
          i := i + 1;
          continue;
        }
        value := Reading(input, Divisor(i));
        unit := Some(unitMapping[i].name);
        break;
      }
    }
  }

  lemma UnitTableAscending()
    ensures Ascending(UnitTable)
  {
  }

  /** In an ascending table the first key above `x` is the smallest key
      above `x`. */
  lemma FirstAboveIsSmallest(t: seq<Entry>, x: int)
    requires Ascending(t)
    ensures FirstAbove(t, x).Some? ==>
              forall j :: 0 <= j < |t| && x < t[j].key ==> t[FirstAbove(t, x).value].key <= t[j].key
  {
  }

  /** Every reading below 1024 bytes, negative ones included, is in bytes. */
  lemma BelowOneKilobyte(x: Long)
    requires x < 1024
    ensures FirstAbove(UnitTable, x) == Some(0)
    ensures UnitTable[0].name == "unit.size.b"
  {
  }

  /** long.MaxValue is below no key: the handler leaves unit and value. */
  lemma MaxValueMatchesNothing()
    ensures FirstAbove(UnitTable, LongMax) == None
  {
  }

  /** For the buckets kb to tb the divisor is the previous key and the
      reading lies in [divisor, 1024 * divisor): shown as at least 1 and
      less than 1024 of its unit. */
  lemma BucketBounds(x: Long)
    requires FirstAbove(UnitTable, x).Some?
    requires 1 <= FirstAbove(UnitTable, x).value <= 4
    ensures var i := FirstAbove(UnitTable, x).value;
            Divisor(i) == UnitTable[i].key / 1024 == UnitTable[i - 1].key &&
            Divisor(i) <= x < 1024 * Divisor(i)
  {
    var i := FirstAbove(UnitTable, x).value;
    assert UnitTable[i - 1].key <= x;
    assert Divisor(1) == 1024 && Divisor(2) == 1048576 && Divisor(3) == 1073741824;
    assert Divisor(4) == 1099511627776;
  }

  /** With the divisor 1024^5 the pb bucket shows every reading as at least
      1 pb: the reading is at least the tb key, 1024^5. */
  lemma PetabyteBucket(x: Long)
    requires FirstAbove(UnitTable, x) == Some(5)
    ensures Divisor(5) == 1125899906842624 <= x
  {
    assert UnitTable[4].key <= x;
    assert Divisor(5) == 1024 * Divisor(4);
    assert Divisor(4) == 1099511627776;
  }

  /** The divisor the handler computes for the kb..tb rows is 1024^i, but
      for the pb row it is 2^53 = 8 * 1024^5: a reading of exactly 1 pb,
      1024^5 bytes, lands in the pb row and gets the value 0.125. */
  lemma PetabyteWrittenDivisor()
    ensures forall i :: 0 <= i <= 4 ==> WrittenDivisor(i) == Divisor(i)
    ensures FirstAbove(UnitTable, 1125899906842624) == Some(5)
    ensures WrittenDivisor(5) == 8 * Divisor(5)
    ensures 1125899906842624 < WrittenDivisor(5)
  {
    assert Divisor(1) == 1024 && Divisor(2) == 1048576 && Divisor(3) == 1073741824;
    assert Divisor(4) == 1099511627776 && Divisor(5) == 1125899906842624;
    FirstAboveAt(UnitTable, 1125899906842624, 5);
  }
}
