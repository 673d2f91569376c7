/** The email verification code (backend/utils/generateVerificationToken.ts).
    `Math.random` is replaced by the indices it would produce: the i-th
    entry of `randomIndices` is `Math.floor(Math.random() * 62)` of step i. */
module VerificationCode {

  /** The 62 characters a code is drawn from: upper-case letters, lower-case
      letters, digits. */
  const Characters := "ABCDEFGHIJKLMNOPQRSTUVWXYZabcdefghijklmnopqrstuvwxyz0123456789"

  /** The default code length. */
  const DefaultLength := 6

  /** Append `length` characters, the i-th picked by the i-th random index. */
  method GenerateVerificationCode(randomIndices: seq<int>, length: nat := DefaultLength) returns (code: string)
    requires |randomIndices| >= length
    requires forall i :: 0 <= i < length ==> 0 <= randomIndices[i] < |Characters|
    ensures |code| == length
    ensures forall i :: 0 <= i < length ==> code[i] == Characters[randomIndices[i]]
    ensures forall i :: 0 <= i < length ==> code[i] in Characters
  {
    code := "";
    for i := 0 to length
      invariant |code| == i
      invariant forall k :: 0 <= k < i ==> code[k] == Characters[randomIndices[k]]
    {
      code := code + [Characters[randomIndices[i]]];
    }
  }
}
