/** Windows file times and their two sentinel instances (`Net/FileTime.cs`).

    `FileTime` is a class, and `IsMin`/`IsMax` compare with `==`, which on a
    class is reference equality. The model therefore gives every file time
    an identity next to its raw value: the two sentinels have their own
    identities, and every other construction (a read from the wire included)
    yields a fresh one, told apart by an allocation serial.
 */
module FileTimes {
  import opened Wrappers
  import opened Bytes
  import opened Packet

  datatype Identity = MinInstance | MaxInstance | Allocated(serial: nat)

  datatype FileTime = FileTime(identity: Identity, rawValue: i64) {

    /** `IsMin`: this is the `MinValue` instance itself. */
    predicate IsMin()
    {
      identity == MinInstance
    }

    /** `IsMax`: this is the `MaxValue` instance itself. */
    predicate IsMax()
    {
      identity == MaxInstance
    }
  }

  /** 1 January 1900. */
  const MinValue: FileTime := FileTime(MinInstance, 94_354_848_000_000_000)

  /** 1 January 2079. */
  const MaxValue: FileTime := FileTime(MaxInstance, 150_842_304_000_000_000)

  /** `new FileTime(value)`, the `serial`-th allocation. */
  function New(serial: nat, value: i64): (t: FileTime)
    ensures t.rawValue == value
    ensures !t.IsMin() && !t.IsMax()
  {
    FileTime(Allocated(serial), value)
  }

  /** `WriteTime`: the raw value as an i64. */
  function WriteTime(t: FileTime): (bs: seq<byte>)
    ensures |bs| == 8 && DecodeSigned(bs) == t.rawValue
  {
    WriteLong(t.rawValue)
  }

  /** `ReadTime`: an i64, wrapped in a newly allocated file time. */
  function ReadTime(r: Reader, serial: nat): (res: Result<Parsed<FileTime>>)
    ensures res.Ok? <==> 8 <= Remaining(r)
    ensures res.Ok? ==> At(r, WriteTime(res.value.value)) && res.value.next == Skip(r, 8)
    ensures res.Ok? ==> !res.value.value.IsMin() && !res.value.value.IsMax()
  {
    var v :- ReadLong(r);
    Ok(Parsed(New(serial, v.value), v.next))
  }

  /** The sentinels are what their names say, in order, and no file time is
      both. */
  lemma Sentinels(t: FileTime)
    ensures MinValue.IsMin() && !MinValue.IsMax()
    ensures MaxValue.IsMax() && !MaxValue.IsMin()
    ensures MinValue.rawValue < MaxValue.rawValue
    ensures !(t.IsMin() && t.IsMax())
  {
  }

  /** The raw value survives a write and a read; the identity does not. */
  lemma TimeRoundTrip(r: Reader, t: FileTime, serial: nat)
    requires At(r, WriteTime(t))
    ensures ReadTime(r, serial) == Ok(Parsed(New(serial, t.rawValue), Skip(r, 8)))
  {
    ReadWriteLong(r, t.rawValue);
  }

  /** Reading back the bytes of `MinValue` gives a file time with the same raw
      value that is nevertheless not `IsMin`. */
  lemma ReadMinIsNotMin(serial: nat)
    ensures var res := ReadTime(Start(WriteTime(MinValue)), serial);
      res.Ok? && res.value.value.rawValue == MinValue.rawValue && !res.value.value.IsMin()
  {
    TimeRoundTrip(Start(WriteTime(MinValue)), MinValue, serial);
  }
}
