/**
 * Passphrase handling of crypto/age.go.
 *
 * The age format and its scrypt recipient stay opaque: sealing is a function
 * `seal(plaintext, passphrase)` that either yields the ciphertext or the error
 * the age library reports.  What the model keeps is the confirmation rule of
 * the passphrase prompt and the in-place wiping of the plaintext buffer.
 */
module Crypto {
  import opened Wrappers

  const ReadContext: string := "error reading password"
  const MismatchMessage: string := "passwords do not match"

  /**
   * `PromptForPassphrase`, given what the two terminal reads returned: the
   * passphrase and then its confirmation.  A failed read is reported with
   * `%s`, so its cause is kept as text only.
   */
  function PromptForPassphrase(first: Result<string>, second: Result<string>): (r: Result<string>)
    ensures r.Ok? <==> first.Ok? && second.Ok? && first.value == second.value
    ensures r.Ok? ==> r.value == first.value
    ensures first.Err? ==> r == Err(Formatted(ReadContext, first.error))
    ensures first.Ok? && second.Err? ==> r == Err(Formatted(ReadContext, second.error))
    ensures first.Ok? && second.Ok? && first.value != second.value ==> r == Err(Message(MismatchMessage))
  {
    if first.Err? then Err(Formatted(ReadContext, first.error))
    else if second.Err? then Err(Formatted(ReadContext, second.error))
    else if first.value != second.value then Err(Message(MismatchMessage))
    else Ok(first.value)
  }

  /** A zeroed buffer: what `EncryptWithPassphrase` leaves behind on success. */
  predicate Wiped(s: Bytes) {
    forall i | 0 <= i < |s| :: s[i] == 0
  }

  /**
   * `EncryptWithPassphrase`.  `seal` stands for the four age calls (recipient
   * creation, encryptor setup, write, close); whichever fails first, its
   * error is returned as it is.  Only after a successful seal is the
   * plaintext overwritten with zeros, in place.
   */
  method EncryptWithPassphrase(data: array<bv8>, passphrase: string, seal: (Bytes, string) -> Result<Bytes>)
    returns (r: Result<Bytes>)
    modifies data
    ensures r == seal(old(data[..]), passphrase)
    ensures r.Err? ==> data[..] == old(data[..])
    ensures r.Ok? ==> Wiped(data[..])
  {
    r := seal(data[..], passphrase);
    if r.Err? {
      return;
    }
    var i := 0;
    while i < data.Length
      invariant 0 <= i <= data.Length
      invariant forall j | 0 <= j < i :: data[j] == 0
    {
      data[i] := 0;
      i := i + 1;
    }
  }
}
