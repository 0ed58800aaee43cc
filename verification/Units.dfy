/** Bytes, sectors and pages. */
module Units {
  const PAGE_SIZE: nat := 4096

  /** A byte as a number. */
  type Octet = x: int | 0 <= x < 256

  type Sector = s: seq<Octet> | |s| == 512 witness seq(512, _ => 0)
}
