/** SHA-256 in hex: any function to hex digits that tells its arguments apart. */
module Digests {
  type Digest = string -> string

  ghost predicate GoodDigest(hash: Digest) {
    && (forall a, b :: hash(a) == hash(b) ==> a == b)
    && (forall a :: HexString(hash(a)) && |hash(a)| >= 2)
  }

  predicate HexString(s: string) {
    forall i :: 0 <= i < |s| ==> '0' <= s[i] <= '9' || 'a' <= s[i] <= 'f'
  }
}
