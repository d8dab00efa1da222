/** Library code the model does not look into, passed in as total
    functions: the SHA-1 digest of a file's bytes (as a hex string, the
    `checksum` package), and `path.Join` and `path.Clean`. */
module Library {

  type Bytes = seq<bv8>

  datatype Oracles = Oracles(
    sha1: Bytes -> string,
    join: (string, string) -> string,
    clean: string -> string)
}
