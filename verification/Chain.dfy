/** Names that the modules above the codecs share. */
module Chain {
  import opened Machine

  type Hash = seq<byte>

  /** core.MetachainShardId. */
  const META_SHARD: uint32 := 0xFFFF_FFFF
}
