/** The human-readable byte-count formatter of `YouTubeDownloader.format_size`:
    divide by 1024 through B, KB, MB and GB, stop at the first unit where the
    value is below 1024, and fall through to TB. */
module SizeFormat {
  import opened Common

  datatype Unit = B | KB | MB | GB | TB

  /** A formatted size before the two-decimal rendering: either the literal
      "N/A" placeholder or a scaled value with its unit. */
  datatype SizeText = NotAvailable | Scaled(amount: real, unit: Unit)

  function UnitName(u: Unit): (r: string)
  {
    match u
    case B => "B"
    case KB => "KB"
    case MB => "MB"
    case GB => "GB"
    case TB => "TB"
  }

  /** The unit reached after dividing k times (k = 4 is the TB fall-through). */
  function UnitAt(k: nat): (u: Unit)
    requires k <= 4
    ensures k == 0 <==> u == B
    ensures k == 4 <==> u == TB
  {
    [B, KB, MB, GB, TB][k]
  }

  function Pow1024(k: nat): (p: nat)
    ensures p >= 1
  {
    if k == 0 then 1 else 1024 * Pow1024(k - 1)
  }

  /** The unit band of a size, decided on the integers: how many of the four
      thresholds 1024, 1024^2, 1024^3, 1024^4 the size reaches. */
  function Band(s: int): (k: nat)
    ensures k <= 4
  {
    if s < Pow1024(1) then 0
    else if s < Pow1024(2) then 1
    else if s < Pow1024(3) then 2
    else if s < Pow1024(4) then 3
    else 4
  }

  /** What `format_size` returns, as a function of its argument: a falsy size
      (null/absent or zero) gives "N/A", any other size is scaled into its band. */
  function SizeTextOf(size: Option<int>): (t: SizeText)
  {
    match size
    case None => NotAvailable
    case Some(s) =>
      if s == 0 then NotAvailable
      else Scaled(s as real / Pow1024(Band(s)) as real, UnitAt(Band(s)))
  }

  /** The string the source returns; `fixed2` stands for Python's `:.2f`
      rendering of a float, which this model does not interpret. */
  function Render(t: SizeText, fixed2: real -> string): (r: string)
  {
    match t
    case NotAvailable => "N/A"
    case Scaled(v, u) => fixed2(v) + " " + UnitName(u)
  }

  /** `format_size`: the loop over the four units, dividing the running
      value by 1024 each time it is not yet below 1024. */
  method FormatSize(size: Option<int>) returns (r: SizeText)
    ensures r == SizeTextOf(size)
  {
    if size.None? || size.value == 0 {
      return NotAvailable;
    }
    var s := size.value;
    var units := [B, KB, MB, GB];
    var v: real := s as real;
    var i := 0;
    while i < |units|
      invariant 0 <= i <= 4
      invariant v == s as real / Pow1024(i) as real
      invariant i > 0 ==> Pow1024(i) <= s
    {
      BelowIff(s, i);
      if v < 1024.0 {
        BandCharacterised(s, i);
        return Scaled(v, units[i]);
      }
      DivideStep(s, i);
      v := v / 1024.0;
      i := i + 1;
    }
    BandCharacterised(s, 4);
    return Scaled(v, TB);
  }

  lemma DivBelow(x: real, p: real, c: real)
    requires p > 0.0
    ensures x / p < c <==> x < c * p
  {
    var q := x / p;
    assert q * p == x;
    if q < c {
      assert q * p < c * p;
    } else {
      assert q * p >= c * p;
    }
  }

  /** One step of the loop: the running value is below 1024 exactly when the
      size is below the next power of 1024. */
  lemma BelowIff(s: int, i: nat)
    ensures s as real / Pow1024(i) as real < 1024.0 <==> s < Pow1024(i + 1)
  {
    var p := Pow1024(i) as real;
    assert Pow1024(i + 1) as real == 1024.0 * p;
    DivBelow(s as real, p, 1024.0);
  }

  lemma DivideStep(s: int, i: nat)
    ensures s as real / Pow1024(i) as real / 1024.0 == s as real / Pow1024(i + 1) as real
  {
    var p := Pow1024(i) as real;
    assert Pow1024(i + 1) as real == p * 1024.0;
  }

  lemma PowValues()
    ensures Pow1024(1) == 1024
    ensures Pow1024(2) == 1048576
    ensures Pow1024(3) == 1073741824
    ensures Pow1024(4) == 1099511627776
  {
    assert Pow1024(1) == 1024 * Pow1024(0);
    assert Pow1024(2) == 1024 * Pow1024(1);
    assert Pow1024(3) == 1024 * Pow1024(2);
  }

  /** Both directions of the band characterisation: Band(s) == k exactly when
      the size reaches the threshold 1024^k (k > 0) and, unless k is the TB
      fall-through, stays below the next threshold 1024^(k+1). */
  lemma BandCharacterised(s: int, k: nat)
    requires k <= 4
    ensures Band(s) == k <==> (k > 0 ==> Pow1024(k) <= s) && (k < 4 ==> s < Pow1024(k + 1))
  {
    PowValues();
  }

  /** The unit chosen is the first of B, KB, MB, GB at which the size divided
      by 1024^j is below 1024: at every earlier unit the divided value is at
      least 1024, and at the chosen one (unless it is the TB fall-through) it
      is below 1024. */
  lemma FirstFittingUnit(s: int, j: nat)
    requires s > 0 && j < 4
    ensures j < Band(s) ==> s as real / Pow1024(j) as real >= 1024.0
    ensures j == Band(s) ==> s as real / Pow1024(j) as real < 1024.0
  {
    BelowIff(s, j);
    PowValues();
    if j == 0 {
      assert Pow1024(j + 1) == Pow1024(1);
    } else if j == 1 {
      assert Pow1024(j + 1) == Pow1024(2);
    } else if j == 2 {
      assert Pow1024(j + 1) == Pow1024(3);
    } else {
      assert Pow1024(j + 1) == Pow1024(4);
    }
  }

  /** A larger size never lands in a smaller unit. */
  lemma BandMonotone(s: int, t: int)
    requires s <= t
    ensures Band(s) <= Band(t)
  {
    PowValues();
  }

  /** A falsy size (absent or zero) renders as exactly "N/A", and nothing else
      does: a non-zero size is never rendered as a placeholder or a zero. */
  lemma NotAvailableExactly(size: Option<int>, fixed2: real -> string)
    ensures SizeTextOf(size) == NotAvailable <==> size.None? || size.value == 0
    ensures (Render(SizeTextOf(size), fixed2) == "N/A") <==> (size.None? || size.value == 0)
  {
    var t := SizeTextOf(size);
    if t.Scaled? {
      var r := Render(t, fixed2);
      assert r[|r| - 1] == 'B';
      assert "N/A"[2] == 'A';
    }
  }

  /** A non-zero size keeps its sign and is scaled by exactly 1024^k, where
      k is the unit index (4 for TB). */
  lemma ScaledValue(s: int)
    requires s != 0
    ensures SizeTextOf(Some(s)).Scaled?
    ensures SizeTextOf(Some(s)).amount * Pow1024(Band(s)) as real == s as real
    ensures s > 0 ==> SizeTextOf(Some(s)).amount > 0.0
    ensures s < 0 ==> SizeTextOf(Some(s)).amount < 0.0 && SizeTextOf(Some(s)).unit == B
  {
    var p := Pow1024(Band(s)) as real;
    assert s as real / p * p == s as real;
    if s < 0 {
      assert Band(s) == 0;
    }
  }

  /** For a positive size below TB the scaled value lies in [1, 1024) except
      in the B band, where it is the size itself. */
  lemma ScaledRange(s: int)
    requires 0 < s < Pow1024(4)
    ensures SizeTextOf(Some(s)).amount < 1024.0
    ensures Band(s) == 0 ==> SizeTextOf(Some(s)).amount == s as real
    ensures Band(s) > 0 ==> SizeTextOf(Some(s)).amount >= 1.0
  {
    var k := Band(s);
    BelowIff(s, k);
    var p := Pow1024(k) as real;
    if k > 0 {
      BandCharacterised(s, k);
      DivBelow(s as real, p, 1.0);
    }
  }

  /** 1048576 bytes is exactly one megabyte: (1.0, MB), rendered "1.00 MB". */
  lemma OneMegabyte(fixed2: real -> string)
    requires fixed2(1.0) == "1.00"
    ensures SizeTextOf(Some(1048576)) == Scaled(1.0, MB)
    ensures Render(SizeTextOf(Some(1048576)), fixed2) == "1.00 MB"
  {
    PowValues();
    assert Band(1048576) == 2;
  }
}
