/** The table of constants of MD5 is a table of sines (RFC 1321, section 3.4): entry i is the integer part of 2^32
    times |sin(i + 1)|. */
module Md5Table {
  import opened Bytes
  import opened Md5Compress

  // 2^32 times twice the cosine of 1.
  const TWO_COS_ONE := 4_641_161_467

  /** Constant(i) with the sign of sin(i + 1), which is that of the half turn i + 1 lies in. */
  function SignedConstant(i: Index): int {
    if (i + 1) * 7 % 44 < 22 then Constant(i) else -(Constant(i) as int)
  }

  /** The first entry is 2^32 sin(1), cut to an integer: between the partial sums of the series for 15! sin(1). */
  lemma FirstConstantIsSineOfOne()
    ensures var f := 1_307_674_368_000;
            var s := f - f / 6 + f / 120 - f / 5_040 + f / 362_880 - f / 39_916_800 + f / 6_227_020_800;
            Constant(0) * f <= (s - 1) * 0x1_0000_0000 && s * 0x1_0000_0000 < (Constant(0) + 1) * f
  {
  }

  /** The same series for 14! cos(1). */
  lemma TwoCosOneIsTwiceCosineOfOne()
    ensures var f := 87_178_291_200;
            var c := f - f / 2 + f / 24 - f / 720 + f / 40_320 - f / 3_628_800 + f / 479_001_600;
            -f < TWO_COS_ONE * f - 2 * c * 0x1_0000_0000 < f
  {
  }

  ghost predicate FollowsTheSine(i: Index)
    requires i < 63
  {
    var before := if i == 0 then 0 else SignedConstant(i - 1);
    var d := (SignedConstant(i + 1) + before) * 0x1_0000_0000 - 4_641_161_467 * SignedConstant(i);
    -2 * 0x1_0000_0000 < d < 2 * 0x1_0000_0000
  }

  lemma Entries0To3(i: Index)
    requires i < 4
    ensures FollowsTheSine(i)
  {
  }

  lemma Entries4To7(i: Index)
    requires 4 <= i < 8
    ensures FollowsTheSine(i)
  {
  }

  lemma Entries8To11(i: Index)
    requires 8 <= i < 12
    ensures FollowsTheSine(i)
  {
  }

  lemma Entries12To15(i: Index)
    requires 12 <= i < 16
    ensures FollowsTheSine(i)
  {
  }

  lemma Entries16To19(i: Index)
    requires 16 <= i < 20
    ensures FollowsTheSine(i)
  {
  }

  lemma Entries20To23(i: Index)
    requires 20 <= i < 24
    ensures FollowsTheSine(i)
  {
  }

  lemma Entries24To27(i: Index)
    requires 24 <= i < 28
    ensures FollowsTheSine(i)
  {
  }

  lemma Entries28To31(i: Index)
    requires 28 <= i < 32
    ensures FollowsTheSine(i)
  {
  }

  lemma Entries32To35(i: Index)
    requires 32 <= i < 36
    ensures FollowsTheSine(i)
  {
  }

  lemma Entries36To39(i: Index)
    requires 36 <= i < 40
    ensures FollowsTheSine(i)
  {
  }

  lemma Entries40To43(i: Index)
    requires 40 <= i < 44
    ensures FollowsTheSine(i)
  {
  }

  lemma Entries44To47(i: Index)
    requires 44 <= i < 48
    ensures FollowsTheSine(i)
  {
  }

  lemma Entries48To51(i: Index)
    requires 48 <= i < 52
    ensures FollowsTheSine(i)
  {
  }

  lemma Entries52To55(i: Index)
    requires 52 <= i < 56
    ensures FollowsTheSine(i)
  {
  }

  lemma Entries56To59(i: Index)
    requires 56 <= i < 60
    ensures FollowsTheSine(i)
  {
  }

  lemma Entries60To62(i: Index)
    requires 60 <= i < 63
    ensures FollowsTheSine(i)
  {
  }

  /** sin(n + 1) + sin(n - 1) == 2 cos(1) sin(n), up to the cutting of the entries to integers. */
  lemma ConstantsFollowTheSine(i: Index)
    requires i < 63
    ensures var before := if i == 0 then 0 else SignedConstant(i - 1);
            -2 * 0x1_0000_0000
            < (SignedConstant(i + 1) + before) * 0x1_0000_0000 - TWO_COS_ONE * SignedConstant(i)
            < 2 * 0x1_0000_0000
  {
    hide SignedConstant;
    assert FollowsTheSine(i) by {
      match i / 4
      case 0 => Entries0To3(i);
      case 1 => Entries4To7(i);
      case 2 => Entries8To11(i);
      case 3 => Entries12To15(i);
      case 4 => Entries16To19(i);
      case 5 => Entries20To23(i);
      case 6 => Entries24To27(i);
      case 7 => Entries28To31(i);
      case 8 => Entries32To35(i);
      case 9 => Entries36To39(i);
      case 10 => Entries40To43(i);
      case 11 => Entries44To47(i);
      case 12 => Entries48To51(i);
      case 13 => Entries52To55(i);
      case 14 => Entries56To59(i);
      case _ => Entries60To62(i);
    }
  }
}
