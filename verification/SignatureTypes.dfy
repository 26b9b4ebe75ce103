/** The codes of the order signature types. */
module SignatureTypes {
  const EOA: int := 0
  const PROXY: int := 1
  const GNOSIS_SAFE: int := 2
  const POLY_1271: int := 3
}
