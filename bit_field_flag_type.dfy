/** The bit-field flag logical type: a 64-bit field in which every named
    flag owns one bit. `create` numbers the flags in iteration order, the
    first flag owning the rightmost bit; `getWithFlag` and `getWithAllFlags`
    build masks.

    Java's arithmetic is written out: a Java `byte` is its eight-bit two's
    complement pattern (`bv8`), so the counter of `create` wraps from 127 to
    -128 as `bv8` addition does, and `1L << b` shifts by the low six bits of
    `b`. The masks are 64-bit `long`s; the only operations applied to them
    are `1L << n`, `|` and the literal 0, so a mask is represented by the
    set of positions of its one-bits (`LongBits`, positions 0 to 63), which
    determines the 64-bit value and back: `1L << n` is a singleton, `|` is
    union and 0 is the empty set. */
module BitFieldFlags {
  import opened Results

  /** The value of a Java `byte` counter that started at 0 and was
      incremented `n` times: `bv8` addition wraps from 127 (0x7f) to -128
      (0x80) as `++` on a byte does. */
  function ByteCounter(n: nat): bv8 {
    if n == 0 then 0 else ByteCounter(n - 1) + 1
  }

  /** One `++` on a byte adds one, except that 255 (the pattern of -1)
      goes back to 0. */
  lemma ByteIncrement(x: bv8)
    ensures x as int < 255 ==> (x + 1) as int == x as int + 1
    ensures x as int == 255 ==> (x + 1) as int == 0
  {
  }

  /** Counting modulo 256 one step further. */
  lemma CountStep(n: nat)
    requires n > 0
    ensures (n - 1) % 256 < 255 ==> n % 256 == (n - 1) % 256 + 1
    ensures (n - 1) % 256 == 255 ==> n % 256 == 0
  {
    var q := (n - 1) / 256;
    assert n == 256 * q + (n - 1) % 256 + 1;
  }

  /** The counter after `n` increments is `n` modulo 256. */
  lemma {:induction false} ByteCounterWraps(n: nat)
    ensures ByteCounter(n) as int == n % 256
  {
    if n > 0 {
      ByteCounterWraps(n - 1);
      ByteIncrement(ByteCounter(n - 1));
      CountStep(n);
    }
  }

  datatype BitFieldFlagType = BitFieldFlagType(flagToBit: map<string, bv8>)

  const TooManyFlags := "BitFieldFlag only supports up to 64 flags"

  // ---------------------------------------------------------------------
  // create
  // ---------------------------------------------------------------------

  /** The map the loop of `create` has built after reading `flags`: each put
      overwrites, so the last occurrence of a flag wins. */
  function Assigned(flags: seq<string>): (m: map<string, bv8>)
    ensures |m| <= |flags|
    decreases |flags|
  {
    if flags == [] then map[]
    else Assigned(flags[..|flags| - 1])[flags[|flags| - 1] := ByteCounter(|flags| - 1)]
  }

  /** The position of the last occurrence of `f` in `flags`. */
  function LastIndexOf(flags: seq<string>, f: string): (r: nat)
    requires f in flags
    ensures r < |flags| && flags[r] == f
    ensures forall j :: r < j < |flags| ==> flags[j] != f
    decreases |flags|
  {
    if flags[|flags| - 1] == f then |flags| - 1
    else
      assert f in flags[..|flags| - 1] by {
        var k :| 0 <= k < |flags| && flags[k] == f;
        assert flags[..|flags| - 1][k] == f;
      }
      LastIndexOf(flags[..|flags| - 1], f)
  }

  function FlagSet(flags: seq<string>): set<string> {
    set f | f in flags
  }

  /** Every flag gets a bit, and the bit is the (byte-wrapped) index of the
      flag's last occurrence. */
  lemma {:induction false} AssignedIsLastOccurrence(flags: seq<string>)
    ensures Assigned(flags).Keys == FlagSet(flags)
    ensures forall f :: f in flags ==> Assigned(flags)[f] == ByteCounter(LastIndexOf(flags, f))
    decreases |flags|
  {
    if flags != [] {
      var n := |flags| - 1;
      var init := flags[..n];
      AssignedIsLastOccurrence(init);
      assert flags == init + [flags[n]];
      forall f | f in flags
        ensures Assigned(flags)[f] == ByteCounter(LastIndexOf(flags, f))
      {
        if f != flags[n] {
          var k :| 0 <= k < |flags| && flags[k] == f;
          assert init[k] == f;
        }
      }
    }
  }

  /** What `create` returns for `flags`. */
  function CreateSpec(flags: seq<string>): (r: Result<BitFieldFlagType>)
    ensures r.Ok? <==> 0 < |Assigned(flags)| <= 64
    ensures r.Throws? ==> r.exception.IllegalArgument?
    ensures flags == [] ==> r == Throws(IllegalArgument(""))
  {
    var flagToBit := Assigned(flags);
    if |flagToBit| == 0 then Throws(IllegalArgument(""))
    else if |flagToBit| > 64 then Throws(IllegalArgument(TooManyFlags))
    else Ok(BitFieldFlagType(flagToBit))
  }

  /** `create` accepts exactly the non-empty flag lists with at most 64
      distinct flags, and then maps every listed flag, and nothing else, to
      its last index. */
  lemma CreateAccepts(flags: seq<string>)
    ensures CreateSpec(flags).Ok? <==> 0 < |FlagSet(flags)| <= 64
    ensures |flags| == 0 ==> CreateSpec(flags) == Throws(IllegalArgument(""))
    ensures |FlagSet(flags)| > 64 ==> CreateSpec(flags) == Throws(IllegalArgument(TooManyFlags))
    ensures CreateSpec(flags).Ok? ==>
      CreateSpec(flags).value.flagToBit.Keys == FlagSet(flags) &&
      forall f :: f in flags ==> CreateSpec(flags).value.flagToBit[f] == ByteCounter(LastIndexOf(flags, f))
  {
    AssignedIsLastOccurrence(flags);
    assert |Assigned(flags)| == |Assigned(flags).Keys|;
    if |flags| > 0 {
      assert flags[0] in FlagSet(flags);
    }
  }

  /** With distinct flags, the i-th flag owns bit i. */
  lemma DistinctFlagsGetTheirIndex(flags: seq<string>, i: int)
    requires forall j, k :: 0 <= j < k < |flags| ==> flags[j] != flags[k]
    requires CreateSpec(flags).Ok? && 0 <= i < |flags|
    ensures |flags| <= 64
    ensures flags[i] in CreateSpec(flags).value.flagToBit &&
      ShiftDistance(CreateSpec(flags).value.flagToBit[flags[i]]) == i
  {
    CreateAccepts(flags);
    DistinctCount(flags);
    assert LastIndexOf(flags, flags[i]) == i;
    ShiftByCount(i);
  }

  /** A list of distinct flags has as many flags as entries. */
  lemma {:induction false} DistinctCount(flags: seq<string>)
    requires forall j, k :: 0 <= j < k < |flags| ==> flags[j] != flags[k]
    ensures |FlagSet(flags)| == |flags|
    decreases |flags|
  {
    if flags != [] {
      var n := |flags| - 1;
      DistinctCount(flags[..n]);
      assert FlagSet(flags) == FlagSet(flags[..n]) + {flags[n]} by {
        assert flags == flags[..n] + [flags[n]];
      }
      assert flags[n] !in FlagSet(flags[..n]);
    }
  }

  /** `create`: put every flag with the current byte counter, then check. */
  method Create(flags: seq<string>) returns (r: Result<BitFieldFlagType>)
    ensures r == CreateSpec(flags)
  {
    var flagToBit := AssignBits(flags);
    if |flagToBit| == 0 {
      return Throws(IllegalArgument(""));
    }
    if |flagToBit| > 64 {
      return Throws(IllegalArgument(TooManyFlags));
    }
    r := Ok(BitFieldFlagType(flagToBit));
  }

  /** The loop of `create`: every flag in turn is put with the byte counter,
      which is incremented after each flag. */
  method AssignBits(flags: seq<string>) returns (flagToBit: map<string, bv8>)
    ensures flagToBit == Assigned(flags)
  {
    flagToBit := map[];
    var i: bv8 := 0;
    for n := 0 to |flags|
      invariant flagToBit == Assigned(flags[..n])
      invariant i == ByteCounter(n)
    {
      assert flags[..n + 1][..n] == flags[..n];
      flagToBit := flagToBit[flags[n] := i];
      i := i + 1;
    }
    assert flags[..|flags|] == flags;
  }

  // ---------------------------------------------------------------------
  // getWithFlag and getWithAllFlags
  // ---------------------------------------------------------------------

  /** A 64-bit `long`, as the positions of its one-bits. */
  type LongBits = s: set<nat> | forall k :: k in s ==> k < 64 witness {}

  /** The distance `1L << b` shifts by: the low six bits of `b`. */
  function ShiftDistance(b: bv8): (p: nat)
    ensures p < 64
  {
    (b & 63) as int
  }

  /** With fewer than 64 flags read the counter shifts by the count. */
  lemma ShiftByCount(n: nat)
    requires n < 64
    ensures ShiftDistance(ByteCounter(n)) == n
  {
    ByteCounterWraps(n);
  }

  /** The bit a known flag owns. */
  function BitOf(t: BitFieldFlagType, flag: string): (k: nat)
    requires flag in t.flagToBit
    ensures k < 64
  {
    ShiftDistance(t.flagToBit[flag])
  }

  /** `getWithFlag`: a mask with the flag's bit set and nothing else. */
  function GetWithFlag(t: BitFieldFlagType, flag: string): (r: Result<LongBits>)
    ensures r.Ok? <==> flag in t.flagToBit
    ensures r.Throws? ==> r.exception == IllegalArgument("")
    ensures r.Ok? ==> |r.value| == 1 && BitOf(t, flag) in r.value
  {
    if flag !in t.flagToBit then Throws(IllegalArgument(""))
    else Ok({BitOf(t, flag)})
  }

  /** `getWithAllFlags`: the OR of `getWithFlag` over the flags, failing at
      the first unknown one. */
  function AllFlagsSpec(t: BitFieldFlagType, flags: seq<string>): (r: Result<LongBits>)
    ensures r.Throws? ==> r == Throws(IllegalArgument(""))
    ensures r.Ok? ==> forall i :: 0 <= i < |flags| ==> flags[i] in t.flagToBit
    decreases |flags|
  {
    if flags == [] then Ok({})
    else
      match AllFlagsSpec(t, flags[..|flags| - 1])
      case Throws(e) => Throws(e)
      case Ok(acc) =>
        match GetWithFlag(t, flags[|flags| - 1])
        case Throws(e) => Throws(e)
        case Ok(v) => Ok(acc + v)
  }

  method GetWithAllFlags(t: BitFieldFlagType, flags: seq<string>) returns (r: Result<LongBits>)
    ensures r == AllFlagsSpec(t, flags)
  {
    var val: LongBits := {};
    for n := 0 to |flags|
      invariant AllFlagsSpec(t, flags[..n]) == Ok(val)
    {
      assert flags[..n + 1][..n] == flags[..n];
      var single := GetWithFlag(t, flags[n]);
      if single.Throws? {
        FailureSticks(t, flags, n + 1);
        return Throws(single.exception);
      }
      val := val + single.value;
    }
    assert flags[..|flags|] == flags;
    r := Ok(val);
  }

  /** Once a prefix of the flags fails, the whole list fails the same way. */
  lemma {:induction false} FailureSticks(t: BitFieldFlagType, flags: seq<string>, n: nat)
    requires n <= |flags| && AllFlagsSpec(t, flags[..n]).Throws?
    ensures AllFlagsSpec(t, flags) == AllFlagsSpec(t, flags[..n])
    decreases |flags|
  {
    if n < |flags| {
      var init := flags[..|flags| - 1];
      assert init[..n] == flags[..n];
      FailureSticks(t, init, n);
    } else {
      assert flags[..n] == flags;
    }
  }

  /** The bits owned by a set of known flags. */
  function BitsOf(t: BitFieldFlagType, fs: set<string>): LongBits
    requires fs <= t.flagToBit.Keys
  {
    set f | f in fs :: BitOf(t, f)
  }

  /** `getWithAllFlags` succeeds iff every listed flag is known, failing as
      `getWithFlag` does otherwise, and then sets exactly the bits of the
      listed flags: none for the empty list. */
  lemma {:induction false} AllFlagsBits(t: BitFieldFlagType, flags: seq<string>)
    ensures AllFlagsSpec(t, flags).Ok? <==> FlagSet(flags) <= t.flagToBit.Keys
    ensures AllFlagsSpec(t, flags).Throws? ==> AllFlagsSpec(t, flags).exception == IllegalArgument("")
    ensures AllFlagsSpec(t, flags).Ok? ==> AllFlagsSpec(t, flags).value == BitsOf(t, FlagSet(flags))
    decreases |flags|
  {
    if flags != [] {
      var n := |flags| - 1;
      var init := flags[..n];
      AllFlagsBits(t, init);
      assert flags == init + [flags[n]];
      assert FlagSet(flags) == FlagSet(init) + {flags[n]};
      if FlagSet(flags) <= t.flagToBit.Keys {
        assert BitsOf(t, FlagSet(flags)) == BitsOf(t, FlagSet(init)) + {BitOf(t, flags[n])};
      }
    }
  }

  /** `getWithAllFlags` depends only on which flags are listed: not on their
      order, not on repetitions. */
  lemma SameFlagsSameMask(t: BitFieldFlagType, a: seq<string>, b: seq<string>)
    requires forall f :: f in a <==> f in b
    ensures AllFlagsSpec(t, a) == AllFlagsSpec(t, b)
  {
    AllFlagsBits(t, a);
    AllFlagsBits(t, b);
    assert FlagSet(a) == FlagSet(b);
  }

  /** `getWithAllFlags` is the OR of the `getWithFlag` masks of the flags. */
  lemma AllFlagsIsUnionOfSingles(t: BitFieldFlagType, flags: seq<string>, k: nat)
    requires AllFlagsSpec(t, flags).Ok?
    ensures forall i :: 0 <= i < |flags| ==> GetWithFlag(t, flags[i]).Ok?
    ensures k in AllFlagsSpec(t, flags).value <==>
      exists i :: 0 <= i < |flags| && GetWithFlag(t, flags[i]).Ok? && k in GetWithFlag(t, flags[i]).value
  {
    AllFlagsBits(t, flags);
    if k in AllFlagsSpec(t, flags).value {
      var f :| f in FlagSet(flags) && BitOf(t, f) == k;
      var i :| 0 <= i < |flags| && flags[i] == f;
      assert k in GetWithFlag(t, flags[i]).value;
    }
    if exists i :: 0 <= i < |flags| && GetWithFlag(t, flags[i]).Ok? && k in GetWithFlag(t, flags[i]).value {
      var i :| 0 <= i < |flags| && GetWithFlag(t, flags[i]).Ok? && k in GetWithFlag(t, flags[i]).value;
      assert flags[i] in FlagSet(flags);
    }
  }

  /** With distinct flags, no mask has a bit at or above the number of
      flags set. */
  lemma HighBitsClear(flags: seq<string>, listed: seq<string>, k: nat)
    requires forall j, m :: 0 <= j < m < |flags| ==> flags[j] != flags[m]
    requires CreateSpec(flags).Ok?
    requires AllFlagsSpec(CreateSpec(flags).value, listed).Ok?
    requires |flags| <= k
    ensures k !in AllFlagsSpec(CreateSpec(flags).value, listed).value
  {
    var t := CreateSpec(flags).value;
    CreateAccepts(flags);
    AllFlagsBits(t, listed);
    if k in AllFlagsSpec(t, listed).value {
      var f :| f in FlagSet(listed) && BitOf(t, f) == k;
      assert f in FlagSet(flags);
      var j :| 0 <= j < |flags| && flags[j] == f;
      DistinctFlagsGetTheirIndex(flags, j);
      assert false;
    }
  }

  // ---------------------------------------------------------------------
  // Two flags sharing a bit
  // ---------------------------------------------------------------------

  /** `create` bounds the number of distinct flags, but the counter counts
      every entry read: after "a" and sixty-four "b", "b" owns bit 64,
      which the shift reduces to bit 0, the bit of "a". */
  lemma RepeatedFlagsShareABit()
    ensures var flags := ["a"] + seq(64, _ => "b");
      CreateSpec(flags).Ok? &&
      GetWithFlag(CreateSpec(flags).value, "a") == GetWithFlag(CreateSpec(flags).value, "b")
  {
    var flags := ["a"] + seq(64, _ => "b");
    RepeatedFlagsCounters(flags);
    ByteCounterWraps(0);
    ByteCounterWraps(64);
    assert ShiftDistance(ByteCounter(64)) == 0;
  }

  lemma RepeatedFlagsCounters(flags: seq<string>)
    requires flags == ["a"] + seq(64, _ => "b")
    ensures CreateSpec(flags).Ok?
    ensures CreateSpec(flags).value.flagToBit.Keys == {"a", "b"}
    ensures CreateSpec(flags).value.flagToBit["a"] == ByteCounter(0)
    ensures CreateSpec(flags).value.flagToBit["b"] == ByteCounter(64)
  {
    CreateAccepts(flags);
    assert flags[0] == "a" && flags[64] == "b";
    assert FlagSet(flags) == {"a", "b"};
    assert LastIndexOf(flags, "a") == 0;
    assert LastIndexOf(flags, "b") == 64;
  }

  /** `create` with the bound applied to every entry read, so that every
      bit index stays below 64. */
  function CreateChecked(flags: seq<string>): (r: Result<BitFieldFlagType>)
    ensures |flags| <= 64 ==> r == CreateSpec(flags)
  {
    if |flags| > 64 then Throws(IllegalArgument(TooManyFlags)) else CreateSpec(flags)
  }

  /** Under the corrected bound distinct flags own distinct bits, so their
      masks differ. */
  lemma CheckedFlagsOwnDistinctBits(flags: seq<string>, f: string, g: string)
    requires CreateChecked(flags).Ok?
    requires f in CreateChecked(flags).value.flagToBit && g in CreateChecked(flags).value.flagToBit
    requires f != g
    ensures GetWithFlag(CreateChecked(flags).value, f) != GetWithFlag(CreateChecked(flags).value, g)
  {
    var t := CreateChecked(flags).value;
    CreateAccepts(flags);
    var i := LastIndexOf(flags, f);
    var j := LastIndexOf(flags, g);
    assert i != j;
    ShiftByCount(i);
    ShiftByCount(j);
    assert GetWithFlag(t, f).value == {i};
    assert GetWithFlag(t, g).value == {j};
  }
}
