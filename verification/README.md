# Models of the crypto library, the DMA rings and the rate control of a MediaTek WLAN driver

This project models three parts of the driver and proves what they promise.

**The crypto library** (`mtk80211/openbsd/crypto`). Each algorithm is written twice: as its standard defines it, and
as the C code computes it. The second is proved to compute the first.

- AES in its bit-sliced form, two blocks at a time, and in its T-table form with the equivalent inverse cipher
  (FIPS 197): `BitGates`, `SboxCircuit`, `LinearCircuits`, `BitslicedMix`, `BitslicedState`, `Transpose`,
  `BitslicedCipher`, `BitslicedKeys`, `BitslicedAes`; `RijndaelRounds`, `RijndaelAes`; the standard itself is
  `Fips197`, and `AesAgreement` has the two forms agree on every key and message.
- GHASH on 32-bit words (`GaloisField`, `Ghash`; SP 800-38D), CMAC (`Cmac`; SP 800-38B), Poly1305 on 26-bit limbs
  (`Poly1305Limbs`, `Poly1305Bytes`, `Poly1305`; RFC 8439), SHA-256 in both forms of its transform (`Sha256`,
  `Sha256Transform`, `Sha256Context`; FIPS 180-4; `Sha256Constants` has the origin of the constants and
  `Sha256Example` the digest of a message). Their contexts are classes whose state is tied to the message given
  so far, so that the result cannot depend on how the message was split.
- AES key wrap (`KeyWrap`; RFC 3394), Blowfish and its CBC mode (`Blowfish`, `BlowfishModes`; SP 800-38A), triple DES
  (`TripleDes`) and the generator of non-repeating 32-bit IDs (`IdGen`). The last three rest on one statement about
  networks of steps that undo themselves (`Feistel`).
- ChaCha20 with its 64-bit counter (`ChaCha`).

**The rings and pools of the driver** (`MtkMwx.cpp`). The device is a step that may move its index forward at any time,
but not past the producer: `TxRing`, `RxRing`, `TxwiPool`, `SetKeyRing`, with the index arithmetic in `RingIndex`.
What a ring contains is seen from its consumer index (`RingIndex.View`). Ghost fields record what was accepted and what
was released.

**The rate control** (`ieee80211_amrr.c`): `Amrr` has one evaluation as a function, whole runs as sequences of
evaluations, and the claims about runs as lemmas.

Some conventions: a byte of the AES family is a `Slice<bool>`, that is, eight bits with names, so that circuits can be
read over single bits, over 32-bit words and over truth tables; `bv32` and the like wrap around as the C types do;
Poly1305 and the events of the descriptor pool use natural numbers with the word sizes written out.

Four findings, each with its exact condition:

- `mwx_dma_tx_enqueue` loads a packet into the DMA map of the producer's slot, but its loop reads segments two by two
  from the map of the slot it has moved on to. From the third segment on, the descriptors name what an earlier packet
  left in another map. They are those of the packet, whatever the other maps hold, exactly when it has at most two
  segments (`TxRing.PacketNamedAlways`; for given maps, `TxRing.PacketNamed`; an example is `TxRing.ThreeSegments`).
  A packet is also released with the first of its descriptors, that is, before the device has passed the others
  (`TxRing.ReleasedWithAll`, again exactly with more than two segments; `TxRing.ReleasedEarly` is a run). Indices and
  space are right all the same, and each packet is released once.
- `mwx_mac_tx_free` compares the number of entries an event announces with the number of words that follow, but its
  loop does not count pair words. An event that passes the comparison is read past its end exactly when it has fewer
  words that are not pair words than it announces (`TxwiPool.OutcomeOf`, `TxwiPool.Pool.TxFree`; an example is
  `TxwiPool.ShortEvent`).
- The last assertion of `mwx_dma_rx_dequeue` holds exactly when the buffer before the last index read ends a frame
  (`RxRing.Ring.Dequeue`; a run in which it fails is `RxRing.HalfFrame`).
- The success threshold of `ieee80211_amrr_choose` is doubled in 32 bits. It stays between the two settings in all runs
  from all thresholds between them exactly when the upper setting is below 2^31, the lower one is zero or there is a
  single rate (`Amrr.ThresholdInRangeExactly`), and in all runs of new nodes exactly when the lower setting, doubled
  fewer than 2^32 times, never gets below itself or there is a single rate (`Amrr.InitialRunsExactly`). The settings
  of the header, 1 and 15, are of the first kind.

## Model

| member | source | states |
|---|---|---|
| SboxCircuit.SubIsAffineOfInverse | mtk80211/openbsd/crypto/aes.c:101-275 | for every byte, the gate circuit computes the S-box of FIPS 197, section 5.1.1: the affine map of the multiplicative inverse in GF(2^8), zero counting as its own inverse |
| SboxCircuit.SubUndone | mtk80211/openbsd/crypto/aes.c:534-592 | running the same circuit between two passes of the affine code gives the inverse S-box: each direction undoes the other on every byte |
| BitslicedMix.CodeIsMix | mtk80211/openbsd/crypto/aes.c:475-506 | the sums written out in mix_columns, and those in inv_mix_columns, are multiplication by the polynomials of sections 5.1.3 and 5.3.3 of FIPS 197 |
| LinearCircuits.MixUndone | mtk80211/openbsd/crypto/aes.c:610-641 | InvMixColumns undoes MixColumns on every column |
| LinearCircuits.InvMixAdditive | mtk80211/openbsd/crypto/rijndael.c:44-55 | InvMixColumns distributes over XOR, on which the equivalent inverse cipher rests |
| Transpose.OrthoTwice | mtk80211/openbsd/crypto/aes.c:285-314 | aes_ct_ortho is an involution on all 256 bits |
| Transpose.OrthoRows | mtk80211/openbsd/crypto/aes.c:63-93 | the three layers of masked swaps transpose the 8x8 bit matrix at every byte position |
| Transpose.OrthoView | mtk80211/openbsd/crypto/aes.c:63-93 | after aes_ct_ortho the even ranks hold the block from the even words and the odd ranks the block from the odd words, byte by byte |
| Transpose.OrthoLoaded | mtk80211/openbsd/crypto/aes.c:63-93 | the second call of aes_ct_ortho takes the two blocks out of the ranks again |
| BitslicedState.SubView | mtk80211/openbsd/crypto/aes.c:101-275 | the word-level circuits substitute all 16 bytes of each lane and do not mix the lanes |
| BitslicedState.ShiftView | mtk80211/openbsd/crypto/aes.c:453-467 | the masked word shifts move every byte of each lane to the place ShiftRows (InvShiftRows) gives it |
| BitslicedState.MixView | mtk80211/openbsd/crypto/aes.c:475-506 | the word rotations mix every column of each lane and nothing else |
| BitslicedCipher.OrthoInPlace | mtk80211/openbsd/crypto/aes.c:285-314 | the in-place swaps on q[0] .. q[7] are the transposition above |
| BitslicedCipher.SboxInPlace | mtk80211/openbsd/crypto/aes.c:101-275 | in place, SubBytes on both lanes |
| BitslicedCipher.InvSboxInPlace | mtk80211/openbsd/crypto/aes.c:534-592 | in place, InvSubBytes on both lanes |
| BitslicedCipher.AddRoundKeyInPlace | mtk80211/openbsd/crypto/aes.c:440-451 | in place, each lane gets its own round key added |
| BitslicedCipher.ShiftRowsInPlace | mtk80211/openbsd/crypto/aes.c:453-467 | in place, ShiftRows on both lanes |
| BitslicedCipher.InvShiftRowsInPlace | mtk80211/openbsd/crypto/aes.c:594-608 | in place, InvShiftRows on both lanes |
| BitslicedCipher.MixColumnsInPlace | mtk80211/openbsd/crypto/aes.c:475-506 | in place, MixColumns on both lanes |
| BitslicedCipher.InvMixColumnsInPlace | mtk80211/openbsd/crypto/aes.c:610-641 | in place, InvMixColumns on both lanes |
| BitslicedCipher.BitsliceEncrypt | mtk80211/openbsd/crypto/aes.c:513-529 | for every number of rounds and every expanded key, the round loop is the cipher of section 5.1 of FIPS 197 on both lanes, each under its own round keys |
| BitslicedCipher.BitsliceDecrypt | mtk80211/openbsd/crypto/aes.c:648-664 | the downward loop is the inverse cipher of section 5.3 on both lanes |
| BitslicedKeys.SubWordInPlace | mtk80211/openbsd/crypto/aes.c:316-329 | sub_word applies the S-box to the four bytes of a word through the bit-sliced circuit |
| BitslicedKeys.KeyschedBase | mtk80211/openbsd/crypto/aes.c:340-382 | the key words are those of KeyExpansion (section 5.2) for 16, 24 and 32 bytes, for a quarter of the length plus 6 rounds; any other length gives 0 and writes nothing |
| BitslicedKeys.ExpandedBack | mtk80211/openbsd/crypto/aes.c:390-438 | dropping every other rank and copying the others back loses nothing on a round key loaded into both lanes |
| BitslicedKeys.Keysched | mtk80211/openbsd/crypto/aes.c:390-415 | each compressed round key stands for the FIPS 197 round key in both lanes |
| BitslicedKeys.SkeyExpand | mtk80211/openbsd/crypto/aes.c:422-438 | every compressed round key is expanded to the eight words it stands for |
| BitslicedAes.AesContext.SetKey | mtk80211/openbsd/crypto/aes.c:667-675 | 0 exactly for 16, 24 and 32 bytes, and then four times the number of rounds is the length plus 24, and both lanes have the round keys of KeyExpansion; -1 otherwise |
| BitslicedAes.AesContext.EncryptEcb | mtk80211/openbsd/crypto/aes.c:677-718 | n blocks, n odd or even, in place or not, give n separate encryptions, and nothing behind them changes |
| BitslicedAes.AesContext.DecryptEcb | mtk80211/openbsd/crypto/aes.c:720-761 | n separate decryptions, likewise |
| BitslicedAes.DecryptsEncrypted | mtk80211/openbsd/crypto/aes.c:720-761 | decrypting any number of encrypted blocks under any expanded key gives the message back |
| BitslicedAes.EncryptsDecrypted | mtk80211/openbsd/crypto/aes.c:677-718 | and the other way round |
| Fips197.InvCipherOfCipher | mtk80211/openbsd/crypto/aes.c:642-664 | the inverse cipher undoes the cipher, for every S-box pair, schedule and block |
| Fips197.CipherOfInvCipher | mtk80211/openbsd/crypto/aes.c:507-529 | the cipher undoes the inverse cipher |
| Fips197.EqInvCipherIsInvCipher | mtk80211/openbsd/crypto/rijndael.c:720-761 | the equivalent inverse cipher on the transformed schedule (section 5.3.5) is the inverse cipher |
| Fips197.ShiftRowsMoves | mtk80211/openbsd/crypto/aes.c:453-467 | row r moves by r columns to the left (section 5.1.2) |
| Fips197.MixColumnsIs | mtk80211/openbsd/crypto/aes.c:475-506 | each entry of a mixed column is the sum 2a + 3b + c + d in the field GF(2^8) in which the S-box takes its inverses (section 5.1.3) |
| Fips197.InvMixColumnsIs | mtk80211/openbsd/crypto/aes.c:610-641 | and on the way back 14a + 11b + 13c + 9d (section 5.3.3) |
| RijndaelRounds.LookupsMix | mtk80211/openbsd/crypto/rijndael.c:44-55 | the four T-table lookups of a column are SubBytes followed by MixColumns |
| RijndaelRounds.LookupsInvMix | mtk80211/openbsd/crypto/rijndael.c:44-55 | the inverse tables are InvSubBytes followed by InvMixColumns |
| RijndaelRounds.EncRound | mtk80211/openbsd/crypto/rijndael.c:855-944 | the four column assignments of a round, with their rotated registers, are one round of the cipher |
| RijndaelRounds.DecRound | mtk80211/openbsd/crypto/rijndael.c:1039-1128 | the same for the rounds of rijndaelDecrypt |
| RijndaelAes.Encrypt | mtk80211/openbsd/crypto/rijndael.c:763-945 | for every even number of rounds from 2 on, the loop of two rounds a turn is the cipher of FIPS 197, also in place |
| RijndaelAes.Decrypt | mtk80211/openbsd/crypto/rijndael.c:947-1129 | and rijndaelDecrypt is the equivalent inverse cipher on the schedule it is given |
| RijndaelAes.KeySetupEnc | mtk80211/openbsd/crypto/rijndael.c:633-713 | the three in-place loops write the key words of KeyExpansion; 10, 12, 14 or 0 rounds, and with 0 rounds the first eight words have been overwritten and no other |
| RijndaelAes.KeySetupDec | mtk80211/openbsd/crypto/rijndael.c:720-761 | turning the keys around in place and unmixing the inner ones through the tables gives the schedule of the equivalent inverse cipher |
| RijndaelAes.DecryptUndoesEncrypt | mtk80211/openbsd/crypto/rijndael.c:720-1129 | on that schedule the equivalent inverse cipher and the cipher undo each other, for every key and block |
| RijndaelAes.RijndaelContext.SetKey | mtk80211/openbsd/crypto/rijndael.c:1147-1163 | both schedules of the context belong to the same key; an unknown length fails, keeps the number of rounds, the decryption schedule and the encryption schedule from word 8 on, and overwrites the first eight words of the latter |
| RijndaelAes.RijndaelContext.SetKeyEncOnly | mtk80211/openbsd/crypto/rijndael.c:1131-1145 | the encryption schedule alone, with the same outcome of an unknown length |
| RijndaelAes.RijndaelContext.EncryptBlock | mtk80211/openbsd/crypto/rijndael.c:1171-1175 | the cipher under the keys that were set |
| RijndaelAes.RijndaelContext.DecryptBlock | mtk80211/openbsd/crypto/rijndael.c:1165-1169 | the result is the one block that encrypts to the input |
| AesAgreement.BothEncrypt | mtk80211/openbsd/crypto/aes.c:667-718 | the two implementations agree: for every key of 16, 24 or 32 bytes and every message of complete blocks, AES_Encrypt_ECB after AES_Setkey gives the bytes that rijndael_encrypt gives block by block after rijndael_set_key |
| AesAgreement.BothDecrypt | mtk80211/openbsd/crypto/aes.c:720-759 | and AES_Decrypt_ECB those of rijndael_decrypt |
| GaloisField.MulXBit | mtk80211/openbsd/crypto/gmac.c:45-82 | multiplying by x moves every coefficient up by one and reduces the one that falls out by R (section 6.3 of SP 800-38D) |
| GaloisField.ProductCommutes | mtk80211/openbsd/crypto/gmac.c:45-82 | the product of section 6.3 is commutative |
| GaloisField.ProductAssociates | mtk80211/openbsd/crypto/gmac.c:45-82 | ... associative |
| GaloisField.ProductDistributes | mtk80211/openbsd/crypto/gmac.c:45-82 | ... distributive over XOR on both sides |
| GaloisField.UnitIsNeutral | mtk80211/openbsd/crypto/gmac.c:45-82 | ... and has a unit |
| Ghash.UpdateVIs | mtk80211/openbsd/crypto/gmac.c:70-75 | the shift across four 32-bit words with the conditional 0xe1000000 is multiplication by x |
| Ghash.GfmulStep | mtk80211/openbsd/crypto/gmac.c:61-76 | each of the 128 turns keeps z and v the partial sum and the power that the product needs |
| Ghash.Gfmul | mtk80211/openbsd/crypto/gmac.c:46-82 | ghash_gfmul is that product, also when the result aliases an input |
| Ghash.GhashContext.Update | mtk80211/openbsd/crypto/gmac.c:84-106 | ghash_update_mi continues the Horner evaluation of section 6.4 over the complete blocks, with y switching from Z to S |
| Ghash.GhashContext.GmacUpdate | mtk80211/openbsd/crypto/gmac.c:142-162 | AES_GMAC_Update takes in the data with an incomplete last block filled up with zero bytes |
| Ghash.HashOfPieces | mtk80211/openbsd/crypto/gmac.c:84-106 | every split of a sequence of blocks gives the hash of the whole |
| Ghash.GhashIsPolynomial | mtk80211/openbsd/crypto/gmac.c:85-107 | the hash of n blocks is the polynomial b1 h^n + ... + bn h in the field, the sum of the products of the blocks with powers of the subkey |
| KeyWrap.UnwrapOfWrap | mtk80211/openbsd/crypto/key_wrap.c:54-121 | for every n and every pair of block functions of which one undoes the other, unwrapping a wrapped key is accepted and gives the key |
| KeyWrap.WrapOfUnwrap | mtk80211/openbsd/crypto/key_wrap.c:87-121 | whatever is accepted is the wrapping of what it unwraps to |
| KeyWrap.AcceptedExactlyWrapped | mtk80211/openbsd/crypto/key_wrap.c:87-121 | a ciphertext is accepted if and only if it is the wrapping of some plaintext |
| KeyWrap.AesDirections | mtk80211/openbsd/crypto/key_wrap.c:41-52 | AES under any round keys is such a pair |
| KeyWrap.InitialValue | mtk80211/openbsd/crypto/key_wrap.c:38-39 | each byte of the initial value is 0xa6 |
| KeyWrap.CounterValue | mtk80211/openbsd/crypto/key_wrap.c:75 | the eight bytes added to the first half are the counter as a big-endian number, modulo 2^64 |
| KeyWrap.WrappedBySteps | mtk80211/openbsd/crypto/key_wrap.c:64-83 | wrapping n halves takes 6n steps; step k adds the number k and works on register (k - 1) mod n |
| KeyWrap.Wrap | mtk80211/openbsd/crypto/key_wrap.c:54-85 | the nested loops in one memory, source and destination overlapping or not, write section 2.2.1 of RFC 3394 and nothing else |
| KeyWrap.Unwrap | mtk80211/openbsd/crypto/key_wrap.c:87-121 | the downward loops write section 2.2.2, and the result is 0 exactly when the integrity value is right |
| Cmac.ShiftedIs | mtk80211/openbsd/crypto/cmac.c:38-43 | the byte loop of LSHIFT is a left shift of the 128-bit string |
| Cmac.NextKeyInPlace | mtk80211/openbsd/crypto/cmac.c:96-116 | the in-place subkey step of section 6.1 of SP 800-38B |
| Cmac.NextKeyDoubles | mtk80211/openbsd/crypto/cmac.c:96-116 | that step is the doubling in GF(2^128): with the bits of the block in the opposite order, the multiplication by x of GHASH |
| Cmac.CmacContext.Update | mtk80211/openbsd/crypto/cmac.c:64-89 | the last 1 to 16 bytes of a non-empty message stay unprocessed, and X is the CBC chain of the rest |
| Cmac.CmacContext.Final | mtk80211/openbsd/crypto/cmac.c:91-128 | the MAC of section 6.2 of everything given so far, for a complete and for an incomplete last block |
| Cmac.MacOfPieces | mtk80211/openbsd/crypto/cmac.c:64-128 | every split of a message gives the one-shot MAC |
| Cmac.MacOfComplete | mtk80211/openbsd/crypto/cmac.c:91-128 | a message of complete blocks gets e(0) doubled once added to its last block |
| Cmac.MacOfRest | mtk80211/openbsd/crypto/cmac.c:91-128 | any other message, also the empty one, gets a one bit and zeros behind it, and e(0) doubled twice added to that last block |
| Poly1305Bytes.KeyLimbsAreClamped | mtk80211/openbsd/crypto/poly1305.c:45-70 | the shifted masks of poly1305_init cut the five limbs out of the clamped r of section 2.5 of RFC 8439 |
| Poly1305Bytes.BlockValue | mtk80211/openbsd/crypto/poly1305.c:99-105 | the five 26-bit fields add up to the little-endian number of the block |
| Poly1305Limbs.ProductsExact | mtk80211/openbsd/crypto/poly1305.c:99-156 | for limbs within the invariant bounds no 64-bit product, sum of products or carry wraps |
| Poly1305Limbs.ExactIsProduct | mtk80211/openbsd/crypto/poly1305.c:107-132 | the five sums with the factors 5r represent h * r modulo 2^130 - 5 |
| Poly1305Limbs.CarriedValue | mtk80211/openbsd/crypto/poly1305.c:134-154 | the partial carry keeps the residue and re-establishes the bounds |
| Poly1305Limbs.FullyCarriedValue | mtk80211/openbsd/crypto/poly1305.c:220-241 | after the final carries every limb is below 2^26: a carry out of h0 can only come with an emptied h1 |
| Poly1305Limbs.SelectedValue | mtk80211/openbsd/crypto/poly1305.c:243-270 | one masked subtraction gives the canonical residue |
| Poly1305Bytes.TagWordsValue | mtk80211/openbsd/crypto/poly1305.c:272-276 | repacking the limbs into four words gives the residue modulo 2^128 |
| Poly1305Bytes.PadAddedValue | mtk80211/openbsd/crypto/poly1305.c:278-286 | the carried 32-bit additions add s modulo 2^128 |
| Poly1305.Poly1305State.Blocks | mtk80211/openbsd/crypto/poly1305.c:72-163 | the block loop folds the complete blocks, each with its high bit or without, and keeps the bounds |
| Poly1305.Poly1305State.Update | mtk80211/openbsd/crypto/poly1305.c:165-200 | the state is that of the message so far: complete blocks folded, the rest in the buffer |
| Poly1305.Poly1305State.Finish | mtk80211/openbsd/crypto/poly1305.c:202-308 | the tag is ((Horner sum times clamped r mod 2^130-5) + s) mod 2^128, and the key is wiped |
| Poly1305.TagOfPieces | mtk80211/openbsd/crypto/poly1305.c:45-308 | for every key and every split of a message the tag is that of the whole |
| Poly1305.TagIsPolynomial | mtk80211/openbsd/crypto/poly1305.c:45-308 | the tag is (c1 r^n + ... + cn r mod 2^130 - 5) + s modulo 2^128, where c1 .. cn are the blocks with the byte 1 behind each, the last and shorter one included |
| Poly1305.NumIsInjective | mtk80211/openbsd/crypto/poly1305.c:288-291 | the tag bytes are determined by the number |
| Poly1305.AeadUpdate | mtk80211/openbsd/crypto/chachapoly.c:96-111 | Chacha20_Poly1305_Update takes in the data filled up with zero bytes to 16 (section 2.8 of RFC 8439) |
| Sha256.ZeroCountIsLeast | mtk80211/openbsd/crypto/sha2.c:481-521 | the number of zero bytes is the least that makes room for the length (section 5.1.1 of FIPS 180-4) |
| Sha256.ChBit | mtk80211/openbsd/crypto/sha2.c:137 | each bit of Ch is that of y where x has a one and that of z elsewhere |
| Sha256.MajBit | mtk80211/openbsd/crypto/sha2.c:138 | each bit of Maj is the one that at least two of the three words have |
| Sha256.BigSigma0Bit | mtk80211/openbsd/crypto/sha2.c:141 | bit k is the sum of the bits 2, 13 and 22 places above it, around the word (section 4.1.2) |
| Sha256.BigSigma1Bit | mtk80211/openbsd/crypto/sha2.c:142 | likewise 6, 11 and 25 |
| Sha256.SmallSigma0Bit | mtk80211/openbsd/crypto/sha2.c:143 | likewise 7 and 18, and 3 without going around |
| Sha256.SmallSigma1Bit | mtk80211/openbsd/crypto/sha2.c:144 | likewise 17 and 19, and 10 without going around |
| Sha256Constants.KIsCubeRoot | mtk80211/openbsd/crypto/sha2.c:164-181 | each of the 64 constants is the first 32 bits behind the point of the cube root of its prime (section 4.2.2), as inequalities between integers |
| Sha256Constants.InitialIsSquareRoots | mtk80211/openbsd/crypto/sha2.c:184-193 | each word of the initial value is that of the square root of its prime (section 5.3.3) |
| Sha256Transform.ExtendWord | mtk80211/openbsd/crypto/sha2.c:288-298 | word j of the 16-word ring becomes word j of the 64-word schedule, and the ring holds the last 16 |
| Sha256Transform.TransformLoop | mtk80211/openbsd/crypto/sha2.c:358-430 | the loop form is the compression of section 6.2 |
| Sha256Transform.TransformUnrolled | mtk80211/openbsd/crypto/sha2.c:274-354 | and so is the unrolled form that renames its registers; the two agree on every state and block |
| Sha256Context.UsedIs | mtk80211/openbsd/crypto/sha2.c:444-448 | the 64-bit bit counter tells the place in the buffer, even after it has wrapped |
| Sha256Context.Sha256State.Update | mtk80211/openbsd/crypto/sha2.c:434-479 | the state is the hash of the complete blocks so far, the buffer holds the rest |
| Sha256Context.Sha256State.Final | mtk80211/openbsd/crypto/sha2.c:481-537 | below 2^61 bytes, the hash of the padded message; the context is wiped |
| Sha256Context.DigestOfPieces | mtk80211/openbsd/crypto/sha2.c:434-537 | every split of such a message gives its hash |
| Sha256Example.DigestOfAbc | mtk80211/openbsd/crypto/sha2.c:434-537 | the hash that the contexts compute, of the message abc, is the digest ba7816bf ... f20015ad of FIPS 180-2, appendix B.1, by way of all words of its schedule and all 64 intermediate states |
| Feistel.StepsUndone | mtk80211/openbsd/crypto/blf.c:72-120 | n Feistel steps are undone by the same steps in reverse, for any step function |
| Feistel.SwappedRetraces | mtk80211/openbsd/crypto/blf.c:97-120 | run again on swapped halves with its step functions in reverse order, a network passes through its own states backwards |
| Blowfish.Encipher | mtk80211/openbsd/crypto/blf.c:72-95 | the unrolled half-rounds on x[0], x[1] compute Enciphered |
| Blowfish.Decipher | mtk80211/openbsd/crypto/blf.c:97-120 | and those in reverse order compute Deciphered |
| Blowfish.EncipheredIsBlowfish | mtk80211/openbsd/crypto/blf.c:72-95 | adding each subkey half a round early is Blowfish as it is defined: 16 rounds, the halves swapped, and the last two subkeys |
| Blowfish.FOfBytes | mtk80211/openbsd/crypto/blf.c:65-68 | F of a word looks its four bytes up, the most significant first, in the four S-boxes one after the other, and adds, XORs and adds |
| Blowfish.DecipherUndoesEncipher | mtk80211/openbsd/crypto/blf.c:72-120 | deciphering undoes enciphering for any contents of the S-boxes and the subkeys |
| Blowfish.EncipherUndoesDecipher | mtk80211/openbsd/crypto/blf.c:72-120 | and the other way round |
| BlowfishModes.CbcEncrypt | mtk80211/openbsd/crypto/blf.c:590-617 | the loop over the buffer, in place, is CBC encryption (section 6.2 of SP 800-38A); what follows stays |
| BlowfishModes.CbcDecrypt | mtk80211/openbsd/crypto/blf.c:619-666 | the loop that runs backwards over the buffer is CBC decryption, although it overwrites what it reads |
| BlowfishModes.CbcDirections | mtk80211/openbsd/crypto/blf.c:590-666 | x encrypts m exactly when m decrypts x |
| BlowfishModes.CbcRoundTrip | mtk80211/openbsd/crypto/blf.c:590-666 | decrypting what was encrypted gives the message back, for every key schedule, initial value and length |
| TripleDes.FinalUndoesInitial | mtk80211/openbsd/crypto/des_locl.h:146-168 | FP, called with the halves exchanged, undoes IP, and IP undoes FP: each PERM_OP is its own inverse |
| TripleDes.CryptedBack | mtk80211/openbsd/crypto/ecb_enc.c:61-110 | the round loop in either direction, with its rotations before and after, undoes the loop in the other, for any tables and schedule |
| TripleDes.Encrypt2 | mtk80211/openbsd/crypto/ecb_enc.c:61-110 | des_encrypt2 on data[0], data[1] in place, both directions |
| TripleDes.TripleBack | mtk80211/openbsd/crypto/ecb3_enc.c:60-84 | des_ecb3_encrypt with (ks3, ks2, ks1) and the other direction undoes it with (ks1, ks2, ks3), for either direction |
| TripleDes.TripleIsSingle | mtk80211/openbsd/crypto/ecb3_enc.c:60-84 | with the first two schedules the same it is single DES under the third |
| TripleDes.Ecb3Encrypt | mtk80211/openbsd/crypto/ecb3_enc.c:60-84 | the code on eight bytes, in place or not, is that function |
| ChaCha.NextCounts | mtk80211/openbsd/crypto/chacha_private.h:191-195 | words 12 and 13 are one counter of 64 bits: the carry out of the first goes into the second, and nothing else changes |
| ChaCha.RotationBits | mtk80211/openbsd/crypto/chacha_private.h:52-55 | the rotations take each bit 16, 12, 8 and 7 places up, around the word |
| ChaCha.QuarterRoundExample | mtk80211/openbsd/crypto/chacha_private.h:51-55 | the quarter round of section 2.1.1 of RFC 8439 |
| ChaCha.AfterCounts | mtk80211/openbsd/crypto/chacha_private.h:191-195 | whatever the counter is at the start, block n has the n-th one after it, modulo 2^64, and the same other words |
| ChaCha.Block | mtk80211/openbsd/crypto/chacha_private.h:129-170 | the 20 rounds and the addition of the input are the block function of section 2.3 of RFC 8439 |
| ChaCha.AddBlock | mtk80211/openbsd/crypto/chacha_private.h:172-212 | a turn on 64 bytes adds the block of key bytes to them, little-endian words, also in place |
| ChaCha.AddTail | mtk80211/openbsd/crypto/chacha_private.h:122-128 | fewer than 64 bytes go through a block of their own, and no byte behind them changes |
| ChaCha.EncryptBytes | mtk80211/openbsd/crypto/chacha_private.h:94-228 | for every length the message has the key stream added, in place or not, and the counter is advanced by the number of blocks begun |
| ChaCha.EncryptsTwice | mtk80211/openbsd/crypto/chacha_private.h:172-189 | encrypting the result again under the same input gives the message back |
| ChaCha.EncryptsSum | mtk80211/openbsd/crypto/chacha_private.h:214-226 | after complete blocks, the next call goes on in the same key stream |
| ChaCha.EncryptPieces | mtk80211/openbsd/crypto/chacha_private.h:94-228 | a message split at multiples of 64 bytes encrypts to the same bytes as the whole, and leaves the same counter |
| IdGen.PermutedIsBijection | mtk80211/openbsd/crypto/idgen.c:93-112 | for any key and any F-table, idgen32_permute is a bijection on 31-bit values |
| IdGen.Permute | mtk80211/openbsd/crypto/idgen.c:93-112 | the round loop computes that function |
| IdGen.IdsDiffer | mtk80211/openbsd/crypto/idgen.c:132-147 | two values of the counter within an epoch give different IDs |
| IdGen.NextEpoch | mtk80211/openbsd/crypto/idgen.c:114-122 | the log stays right when the high bit is toggled, and an ID with the new high bit is none of the epoch before |
| IdGen.Generator.Rekey | mtk80211/openbsd/crypto/idgen.c:114-122 | counter back to zero, high bit toggled, and the log stays free of repeats within an epoch and across adjacent ones |
| IdGen.Generator.Next | mtk80211/openbsd/crypto/idgen.c:132-147 | an ID is never zero, the loop ends within two turns, each with its own reading of the clock, the log of all IDs stays free of such repeats, and each turn starts a new epoch exactly when the counter or the clock asks for it |
| RingIndex.FreeSlotsCount | SimpleMtkWlan/hal_mwx/MtkMwx.cpp:2537-2545 | mwx_dma_free_slots is the number of slots minus one minus those in use |
| TxRing.NamedSegments | SimpleMtkWlan/hal_mwx/MtkMwx.cpp:2581-2612 | segment j that the descriptors of a packet name comes from entry j of the DMA map of slot j / 2 behind the producer, since the loop moves on to the next slot and its map |
| TxRing.PacketNamed | SimpleMtkWlan/hal_mwx/MtkMwx.cpp:2581-2612 | the descriptors name the segments of the packet if and only if the maps of the other slots happen to hold the same segments, from the third one on |
| TxRing.PacketNamedAlways | SimpleMtkWlan/hal_mwx/MtkMwx.cpp:2581-2612 | whatever those maps hold, the descriptors are those of the packet: true exactly of packets of at most two segments |
| TxRing.ThreeSegments | SimpleMtkWlan/hal_mwx/MtkMwx.cpp:2581-2612 | a packet of three segments on maps as they are created: the third entry named is an empty one |
| TxRing.EndMarked | SimpleMtkWlan/hal_mwx/MtkMwx.cpp:2577-2611 | read in order, the descriptors of a packet of n segments name n segments and mark the n-th as the end and none before; an absent segment is never marked, none is marked as done, and the first slot alone holds the packet |
| TxRing.ReleasedWithAll | SimpleMtkWlan/hal_mwx/MtkMwx.cpp:2576-2612 | a packet is held by the first of its slots and goes with it, so that it is never released before the device has passed all its descriptors if and only if it has at most two segments |
| TxRing.ReleasedEarly | SimpleMtkWlan/hal_mwx/MtkMwx.cpp:2678-2738 | a run in which a packet of three segments is released while its last descriptor is still pending |
| TxRing.Ring.LoadInto | SimpleMtkWlan/hal_mwx/MtkMwx.cpp:2558-2564 | loading a packet changes the map of the producer slot and no other |
| TxRing.Ring.Indices | SimpleMtkWlan/hal_mwx/MtkMwx.cpp:2537-2545 | in every state the three indices are in range, the free slots are count - 1 minus the slots in use, and the device is between consumer and producer |
| TxRing.Ring.NotInUse | SimpleMtkWlan/hal_mwx/MtkMwx.cpp:2709-2721 | in every state, a slot that is not in use names no segment, is marked as done and holds no packet |
| TxRing.Ring.DeviceStep | SimpleMtkWlan/hal_mwx/MtkMwx.cpp:2678-2738 | the device may move its index anywhere up to the producer, at any time |
| TxRing.Ring.Enqueue | SimpleMtkWlan/hal_mwx/MtkMwx.cpp:2547-2621 | a packet is either refused with the slots in use unchanged, or as many slots as its segments take are behind them, each written from its own map: they name as many segments, the first two being those of the packet, mark the last and no other as the end, and the first slot holds the packet; the assertion in the loop never fails |
| TxRing.Ring.EnqueueTxwi | SimpleMtkWlan/hal_mwx/MtkMwx.cpp:2623-2676 | a transmit descriptor is refused on a full ring; otherwise one slot is behind those in use, which names its address and length as the one segment, marked as the end and not as done, and holds no packet |
| TxRing.Ring.Cleanup | SimpleMtkWlan/hal_mwx/MtkMwx.cpp:2678-2738 | exactly the slots the device has passed are released, also those it passes meanwhile; it terminates although it reads the index again; each packet in them is freed once |
| TxRing.Ring.Reset | SimpleMtkWlan/hal_mwx/MtkMwx.cpp:2328-2372 | every packet still held is freed, whatever the device has done: all accepted packets have then been freed exactly once |
| RxRing.Ring.Indices | SimpleMtkWlan/hal_mwx/MtkMwx.cpp:2836-2905 | the indices are in range, and every slot between consumer and producer holds a buffer |
| RxRing.Ring.DeviceStep | SimpleMtkWlan/hal_mwx/MtkMwx.cpp:2836-2905 | the device fills any number of waiting buffers, and may stop in the middle of a frame |
| RxRing.Ring.Dequeue | SimpleMtkWlan/hal_mwx/MtkMwx.cpp:2836-2905 | no empty slot is taken and the loop ends; the assertion that no half frame is left holds if and only if the buffer before the last index read ends a frame, and then the frames are the consecutive buffers grouped by LAST_SEC0, in order, each with the sum of its segment lengths |
| RxRing.GroupedBuffers | SimpleMtkWlan/hal_mwx/MtkMwx.cpp:2853-2897 | grouping loses, repeats and moves no buffer: the chains of the frames, one after the other, are the buffers with the lengths the device wrote, and there are as many frames as buffers that end one |
| RxRing.HalfFrame | SimpleMtkWlan/hal_mwx/MtkMwx.cpp:2898-2899 | a run in which that assertion fails: the device has filled the only buffer with the beginning of a frame |
| RxRing.Ring.Fill | SimpleMtkWlan/hal_mwx/MtkMwx.cpp:2417-2446 | all free slots but one get buffers when those can be had, in order, each with 2048 bytes and the mark of a last segment; after a failure the producer index stays |
| RxRing.Ring.RxDone | SimpleMtkWlan/hal_mwx/MtkMwx.cpp:2907-2920 | a dequeue that brings frames is followed by a refill of the whole ring |
| RxRing.Ring.Reset | SimpleMtkWlan/hal_mwx/MtkMwx.cpp:2328-2372 | an empty ring |
| TxwiPool.TakenIsConsistent | SimpleMtkWlan/hal_mwx/MtkMwx.cpp:2138-2149 | the entry handed out was free and has an index of at least 3; the free list stays without duplicates and holds exactly the entries from 3 on that are not busy |
| TxwiPool.BackIsConsistent | SimpleMtkWlan/hal_mwx/MtkMwx.cpp:2151-2171 | so it does when an entry comes back; entries 0 to 2 never enter the list |
| TxwiPool.AllBackFrees | SimpleMtkWlan/hal_mwx/MtkMwx.cpp:5818-5834 | whatever indices an event names, repeated, stale or out of range, exactly the busy entries among them are freed and all others stay |
| TxwiPool.AgainDoesNothing | SimpleMtkWlan/hal_mwx/MtkMwx.cpp:5818-5834 | the same event a second time changes nothing |
| TxwiPool.MsduCount | SimpleMtkWlan/hal_mwx/if_mwxreg.h:712-715 | the number announced is the word divided by 2^16, modulo 2^10 |
| TxwiPool.MsduId | SimpleMtkWlan/hal_mwx/if_mwxreg.h:722-725 | the index in a word is the word divided by 2^16, modulo 2^15 |
| TxwiPool.IsPair | SimpleMtkWlan/hal_mwx/if_mwxreg.h:717 | a pair word is one of at least 2^31 |
| TxwiPool.NamedAre | SimpleMtkWlan/hal_mwx/MtkMwx.cpp:5818-5832 | the entries looked at are the words that are not pair words, in order, as many as announced or as there are |
| TxwiPool.EventRead | SimpleMtkWlan/hal_mwx/MtkMwx.cpp:5811-5832 | an event made of the number of its entries over any 16 bits, any second word, and the indices over any 16 bits each, with any pair words in between, names exactly those indices in that order, whatever is behind it |
| TxwiPool.EventFrees | SimpleMtkWlan/hal_mwx/MtkMwx.cpp:5811-5834 | so exactly the busy entries among its indices come back, and all others stay |
| TxwiPool.NamedSum | SimpleMtkWlan/hal_mwx/MtkMwx.cpp:5818-5832 | words behind the buffer are looked at only after all those in it, and as many of them as those leave missing |
| TxwiPool.NothingBehind | SimpleMtkWlan/hal_mwx/MtkMwx.cpp:5815-5832 | an event that is not read past its end frees the same whatever is behind it |
| TxwiPool.ShortEvent | SimpleMtkWlan/hal_mwx/MtkMwx.cpp:5815-5820 | the length check counts pair words but the loop does not: an event that passes it and is read past its end |
| TxwiPool.Pool.constructor | SimpleMtkWlan/hal_mwx/MtkMwx.cpp:2076-2091 | after the allocation no entry is busy, and the free list has the entries from 3 on in increasing order |
| TxwiPool.Pool.Get | SimpleMtkWlan/hal_mwx/MtkMwx.cpp:2138-2149 | the head of the list, or nothing when it is empty |
| TxwiPool.Pool.Attach | SimpleMtkWlan/hal_mwx/MtkMwx.cpp:2173-2199 | an entry that holds a packet |
| TxwiPool.Pool.Put | SimpleMtkWlan/hal_mwx/MtkMwx.cpp:2151-2171 | an entry that is not busy is ignored; otherwise its packet is freed and it goes back |
| TxwiPool.Pool.TxFree | SimpleMtkWlan/hal_mwx/MtkMwx.cpp:5795-5838 | the ring is cleaned up, and the busy entries named by the words looked at are freed and no others; the buffer is read past its end exactly when it has fewer words that are not pair words than it announces, and then those looked at include words behind it |
| SetKeyRing.AcceptedOneByOne | SimpleMtkWlan/hal_mwx/MtkMwx.cpp:1404-1424 | what a queue of capacity 7 accepts of several requests is what it accepts of them one by one |
| SetKeyRing.ServedInOrder | SimpleMtkWlan/hal_mwx/MtkMwx.cpp:1438-1456 | what mwx_setkey_task installs is what was waiting followed by what was accepted meanwhile, in order |
| SetKeyRing.Ring.SetKey | SimpleMtkWlan/hal_mwx/MtkMwx.cpp:1404-1424 | ENOSPC exactly when 7 requests wait; otherwise the request goes to an empty slot behind them |
| SetKeyRing.Ring.Sleep | SimpleMtkWlan/hal_mwx/MtkMwx.cpp:1446-1447 | any calls made while mwx_setkey_task sleeps add to the queue and overwrite nothing |
| SetKeyRing.Ring.InstallOldest | SimpleMtkWlan/hal_mwx/MtkMwx.cpp:1445-1453 | the oldest request is installed and its slot is cleared, whatever is asked for meanwhile |
| SetKeyRing.Ring.Task | SimpleMtkWlan/hal_mwx/MtkMwx.cpp:1438-1456 | with any calls in between, the ring is a first-in first-out queue of capacity 7, and in the end everything ever accepted has been installed once, in that order |
| Amrr.RateInRange | mtk80211/openbsd/net80211/ieee80211_amrr.c:102-147 | in every run the rate index stays in the rate set |
| Amrr.ThresholdInRange | mtk80211/openbsd/net80211/ieee80211_amrr.c:125-135 | the threshold stays between its bounds in every run, under the condition of the next row |
| Amrr.ThresholdInRangeExactly | mtk80211/openbsd/net80211/ieee80211_amrr.c:125-135 | in all runs from all thresholds between the bounds it stays there if and only if the upper bound has 31 bits, the lower one is zero or there is a single rate |
| Amrr.ThresholdsReached | mtk80211/openbsd/net80211/ieee80211_amrr.c:89-146 | in a run from a new node every threshold is the lower bound doubled some number of times |
| Amrr.ProbesFailed | mtk80211/openbsd/net80211/ieee80211_amrr.c:102-147 | for every k there is a run from a new node in which k probes fail and no other decrease happens |
| Amrr.InitialRunsExactly | mtk80211/openbsd/net80211/ieee80211_amrr.c:89-146 | in all runs from a new node the threshold stays between the bounds if and only if the lower bound, doubled in 32 bits fewer than 2^32 times, never gets below itself, or there is a single rate |
| Amrr.EarlyOrNever | mtk80211/openbsd/net80211/ieee80211_amrr.c:126-131 | looking at fewer than 2^32 doublings is looking at all of them |
| Amrr.FirstBelow | mtk80211/openbsd/net80211/ieee80211_amrr.c:126-131 | and if the lower bound ever gets below itself, it does so within max - min + 1 doublings |
| Amrr.ThresholdLost | mtk80211/openbsd/net80211/ieee80211_amrr.c:89-146 | a run from a new node that takes the threshold to zero |
| Amrr.HigherBoundStays | mtk80211/openbsd/net80211/ieee80211_amrr.c:126-131 | settings with an upper bound above 2^31 and a lower one above zero with which no new node gets there |
| Amrr.DoublingStays | mtk80211/openbsd/net80211/ieee80211_amrr.c:126-131 | one doubling in 32 bits keeps every threshold in range if and only if the upper bound has 31 bits or the lower one is zero |
| Amrr.DoublingDoubles | mtk80211/openbsd/net80211/ieee80211_amrr.c:126-131 | one doubling is min(max, 2t) for all of them if and only if the upper bound has 31 bits |
| Amrr.IncreaseIsEarned | mtk80211/openbsd/net80211/ieee80211_amrr.c:109-117 | each increase is the last of at least threshold successful evaluations since the last change of the rate or failure |
| Amrr.CountedSuccesses | mtk80211/openbsd/net80211/ieee80211_amrr.c:109-124 | the counter is the number of those, modulo 2^32 |
| Amrr.RecoveryIsProbe | mtk80211/openbsd/net80211/ieee80211_amrr.c:109-142 | the recovery flag says that the last evaluation that decided anything raised the rate |
| Amrr.BackedOff | mtk80211/openbsd/net80211/ieee80211_amrr.c:123-136 | at any point of any run, k failed probes and no other decrease between them leave the threshold at min(max, t * 2^k), t being the threshold at that point, when the upper bound has 31 bits |
| Amrr.BackedOffExactly | mtk80211/openbsd/net80211/ieee80211_amrr.c:123-136 | that is so at every point of all runs from all thresholds between the bounds if and only if the upper bound has 31 bits or there is a single rate |
| Amrr.OtherDecreaseResets | mtk80211/openbsd/net80211/ieee80211_amrr.c:132-136 | any other decrease sets it to the lower bound |
| Amrr.VerdictOf | mtk80211/openbsd/net80211/ieee80211_amrr.c:56-61 | an evaluation succeeds if 10 (retries + 1) <= transmissions > 10, and fails if 3 retries > transmissions |
| Amrr.RateControl.Choose | mtk80211/openbsd/net80211/ieee80211_amrr.c:102-147 | the rate falls exactly when it was above 0 and 3 retries > transmissions; it rises exactly when transmissions > 10, 10 (retries + 1) <= transmissions, the successes reach the threshold and there is a higher rate; the threshold changes only on a fall, to its double in 32 bits, at most the upper setting, or to the lower setting; the counters are cleared exactly with more than 10 transmissions or a change; one call is one more evaluation of the run of its node |

## Left out

- SHA-384, SHA-512, SHA-1, MD5 and RIPEMD-160: they buffer as SHA-256 does.
- ARC4, CAST-128, HMAC, PBKDF2 and Michael; CAST-128 would be one more network of the kind of `Feistel`.
- The tables and key schedules of DES, and the setup of the key and the nonce of ChaCha20.
- AES_KeySetup_Encrypt and AES_KeySetup_Decrypt of aes.c, which serve another user of the same key schedule.
- The fully unrolled form of rijndael.c, which is not compiled, and the contents of its tables: Te and Td are what the comment at rijndael.c:44-55 says they are for an S-box; that box and its inverse are a parameter.
- The fixed S-boxes and subkeys of Blowfish, its key setup, and its ECB loops.
- The block cipher under CMAC, key wrap and GMAC is a function or a pair of functions; AES is shown to be such a pair (`KeyWrap.AesDirections`).
- AES_GMAC_Final and AES_GMAC_Reinit: the key stream and the length block that end a GMAC.
- Chacha20_Poly1305_Init, Setkey, Reinit and Final: the one-time key, and the two lengths that end the message.
- The random numbers and the clock of idgen.c are parameters; the F-table is one as well. In this driver time_second is a macro with a constant value, so that only the counter ever starts a new epoch after the first.
- Memory that is wiped is modelled where it is part of a context; wiping of locals is not.
- The allocation and mapping of DMA memory and cache synchronisation: loading a packet has an outcome, which is a parameter, and a list of segments with addresses below 2^32, to which compat.cpp:379-421 copies the others. Receive buffers have no maps here.
- The device registers of a ring other than its DMA index, and the interrupt handling around the rings.
- What a kernel does after the assertion in mwx_dma_rx_dequeue has failed: Dequeue then ends with ok false.
- RxRing.Ring.Fill: after a failure the buffers put into slots behind the producer index are not accounted for, as in the code, which neither uses nor returns them.
- mwx_dma_rx_process, which sorts the received frames by their kind, apart from the events handled by `TxwiPool.Pool.TxFree`.
- mwx_tx as a whole: when loading a packet or putting its descriptor into the ring fails, it does not return the pool entry it has taken.
- TxwiPool.Pool.TxFree: the words behind a buffer are a parameter, and the call stops at their end. Events are modelled in words of four bytes; up to three odd bytes at their end make no difference to the length check. The transmit descriptor that mwx_txwi_put clears has no contents here.
- SetKeyRing.Ring.Task: the requests made during each sleep are given in advance, a finite number of them in all.
- The firmware download, the messages to the firmware, and everything else in MtkMwx.cpp.
- bus_dma emulation in compat.cpp, and the rest of net80211.
