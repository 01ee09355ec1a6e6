/** Block and byte arithmetic: get_display_block_size (util.c), the -s
    column of print_size_column and the size field of print_long_format
    (print.c), and the "total" line of ls_directory (ls.c). */
module Units {
  import opened LsTypes

  /** A size as printed: a plain number, or a byte count that format_size
      renders in human-readable form (that formatting is not modelled). */
  datatype SizeShown = Count(n: nat) | HumanBytes(bytes: nat)

  /** The "total" line: an amount, with a trailing "K" under -h. */
  datatype Total = Total(amount: nat, kibSuffix: bool)

  /** The smallest number of 1024-byte units that hold n bytes. */
  lemma CeilDiv1024(n: nat)
    ensures ((n + 1023) / 1024) * 1024 >= n
    ensures ((n + 1023) / 1024) * 1024 < n + 1024
  {}

  /** get_display_block_size: bytes under -h, kilobytes rounded up under
      -k, else the raw count of 512-byte blocks. */
  function DisplayBlockSize(sb: Stat, o: Options): (r: nat)
    ensures o.humanReadable ==> r == 512 * sb.blocks
    ensures !o.humanReadable && o.kilobytes ==> 2 * r >= sb.blocks && 2 * r <= sb.blocks + 1
    ensures !o.humanReadable && !o.kilobytes ==> r == sb.blocks
  {
    var bytes := sb.blocks * 512;
    if o.humanReadable then bytes
    else if o.kilobytes then
      CeilDiv1024(bytes);
      (bytes + 1023) / 1024
    else sb.blocks
  }

  /** (blocks*512 + 1023) / 1024 is ceil(blocks / 2), the (blocks + 1) / 2
      that print_size_column and the total line compute directly. */
  lemma KilobytesAreHalfBlocks(blocks: nat)
    ensures (blocks * 512 + 1023) / 1024 == (blocks + 1) / 2
  {
    var q := blocks / 2;
    if blocks % 2 == 0 {
      assert blocks * 512 + 1023 == q * 1024 + 1023;
    } else {
      assert blocks * 512 + 1023 == (q + 1) * 1024 + 511;
    }
  }

  /** print_size_column (-s): format_size of blocks*512 under -h, (blocks+1)/2
      under -k, else the raw block count. */
  function SizeColumn(sb: Stat, o: Options): SizeShown {
    if o.humanReadable then HumanBytes(sb.blocks * 512)
    else if o.kilobytes then Count((sb.blocks + 1) / 2)
    else Count(sb.blocks)
  }

  /** The -s column shows exactly what get_display_block_size computes. */
  lemma SizeColumnAgreesWithDisplayBlockSize(sb: Stat, o: Options)
    ensures SizeColumn(sb, o) ==
      if o.humanReadable then HumanBytes(DisplayBlockSize(sb, o)) else Count(DisplayBlockSize(sb, o))
  {
    KilobytesAreHalfBlocks(sb.blocks);
  }

  /** The size field of print_long_format: format_size(st_size) under -h,
      else st_size. */
  function LongSize(sb: Stat, o: Options): SizeShown {
    if o.humanReadable then HumanBytes(sb.size) else Count(sb.size)
  }

  /** The total line of ls_directory: printed only under -l, -n or -s;
      ceil(bytes/1024) with "K" under -h, (blocks+1)/2 under -k, else the
      raw 512-byte block count. */
  function TotalLine(o: Options, totalBlocks: nat, totalBytes: nat): (r: Option<Total>)
    ensures r.Some? <==> o.longFormat || o.numericIds || o.blocks
    ensures r.Some? && o.humanReadable ==>
      r.value.kibSuffix && r.value.amount * 1024 >= totalBytes &&
      r.value.amount * 1024 < totalBytes + 1024
    ensures r.Some? && !o.humanReadable && o.kilobytes ==>
      !r.value.kibSuffix && 2 * r.value.amount >= totalBlocks && 2 * r.value.amount <= totalBlocks + 1
    ensures r.Some? && !o.humanReadable && !o.kilobytes ==> r.value == Total(totalBlocks, false)
  {
    if o.longFormat || o.numericIds || o.blocks then
      if o.humanReadable then
        CeilDiv1024(totalBytes);
        Some(Total((totalBytes + 1023) / 1024, true))
      else if o.kilobytes then Some(Total((totalBlocks + 1) / 2, false))
      else Some(Total(totalBlocks, false))
    else None
  }

  /** Under -h the amount is fixed for every byte total, zero included: any
      amount meeting both bounds is the ceiling (n+1023)/1024. */
  lemma KibTotalDetermined(amount: nat, totalBytes: nat)
    requires amount * 1024 >= totalBytes && amount * 1024 < totalBytes + 1024
    ensures amount == (totalBytes + 1023) / 1024
  {
    // Both amounts lie within 1024 bytes of the total, so they differ by less than one unit.
    CeilDiv1024(totalBytes);
  }
}
