/** The authenticated cipher, known only by its contract: sections 7.1 and 7.2 of
    NIST SP 800-38D with a 12-byte nonce, a 16-byte tag and a fixed key. */
module Aead {
  import opened Outcomes
  import opened ByteStore

  const NONCE_SIZE: nat := 12
  const AUTH_TAG_SIZE: nat := 16

  datatype Cipher = Cipher(
    seal: (seq<byte>, seq<byte>) -> seq<byte>,
    open: (seq<byte>, seq<byte>) -> Option<seq<byte>>)
  {
    /** Sealing appends a tag to a ciphertext as long as the plaintext, and opening undoes it. */
    ghost predicate Sound() {
      forall nonce: seq<byte>, plain: seq<byte> {:trigger seal(nonce, plain)} ::
        |nonce| == NONCE_SIZE ==>
          && |seal(nonce, plain)| == |plain| + AUTH_TAG_SIZE
          && open(nonce, seal(nonce, plain)) == Some(plain)
    }
  }

  /** The contract can be met, so no theorem that assumes it is vacuous. */
  lemma SoundCipherExists() returns (c: Cipher)
    ensures c.Sound()
  {
    c := Cipher(
      (nonce: seq<byte>, plain: seq<byte>) => plain + Zeros(AUTH_TAG_SIZE),
      (nonce: seq<byte>, text: seq<byte>) =>
        if |text| < AUTH_TAG_SIZE then None else Some(text[..|text| - AUTH_TAG_SIZE]));
    forall nonce: seq<byte>, plain: seq<byte> | |nonce| == NONCE_SIZE
      ensures c.open(nonce, c.seal(nonce, plain)) == Some(plain)
    {
      var text := c.seal(nonce, plain);
      assert text[..|text| - AUTH_TAG_SIZE] == plain;
    }
  }
}
