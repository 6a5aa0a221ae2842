# Six cores of Mozc, modelled and proved in Dafny

Mozc is a Japanese input method. This project models six of its self-contained algorithms and proves what each
is for. `dafny verify dfyconfig.toml` checks everything.

The six cores, and the files that model them (`Options` is shared):

| Core | Source | Files |
|---|---|---|
| Kanji numbers: printing and reading | `src/base/number_util.cc` | `CheckedArithmetic`, `NumberReader`, `NumberMeaning`, `NumberGrammar`, `NumberPrinter`, `KanjiText`, `KanjiReading`, `KanjiPrinter`, `KanjiRoundTrip`, `KanjiOldStyle`, `KanjiSpelling`, `KanjiOutput`, `NumberUtil` |
| Client and server: crash recovery | `src/client/client.cc`, `src/client/client.h` | `ClientModel`, `ClientOutcomes`, `ClientSafety`, `ClientRecovery`, `ClientOneCrash`, `ClientLimits`, `Client` |
| AES-256 in CBC mode with padding | `src/base/unverified_aes256.cc`, `src/base/encryptor.cc` | `AesTables`, `AesField`, `AesRounds`, `AesCipher`, `Aes`, `AesKeySchedule`, `AesCbc`, `Encryptor` |
| UTF-8, CSV and graphemes | `src/base/util.cc` | `Utf8`, `Utf8Strings`, `Utf8Standard`, `Utf8Util`, `Csv`, `Graphemes` |
| RecursiveMutex | `src/base/thread.h` | `RecursiveMutex` |
| SHA-1 padding | `src/base/unverified_sha1.cc` | `Sha1Padding` |

Code that changes things step by step is written as methods and classes, each proved against a specification
function. What the source promises is then proved of these functions.

## How the models work

**Numbers.** A character stands for a value, as `src/data/preedit/kanjinumber-arabicnumber.tsv` lists it, and
the reducers work on lists of 64-bit values with wrap-around written out. `NumberMeaning.Meaning` is an
independent evaluator of such lists, and `NumberGrammar` a grammar of them; neither mentions the reducers.
`NumberGrammar.ReadExactly` says that the reader accepts what the grammar allows and returns what it means, up to
the first overrun. `KanjiSpelling` and `KanjiOutput` state what `ArabicToKanji` prints: that it means the
number, how it is spelled, and which entries there are.

**Client.** `ClientModel` describes client and server together. Everything the outside world decides (crashes,
lost or late or garbled answers, versions, whether a server starts or ends) is read from an arbitrary oracle, one
tick for each attempt. The state machine of a session is arbitrary too; recovery assumes of it only what the
journal relies on, which is the predicate `Laws`: an unconsumed input changes nothing, and a committing key
returns the session to its base state. `Healthy` is the invariant that ties client, journal and server to a single
ideal session. `Steady` asks of a run no more than that recovery does not fail: when a Send finds its session
gone, the journal is not full, there is a session again (`EnsureSession` returns true, through whatever restarts),
its SET_REQUEST is executed, and the journal entries and the input are answered. `ClientOneCrash` shows that runs
with one crash at any time are of this kind, and that nobody notices the crash; `ClientLimits` shows what happens
otherwise. `Client` is the class itself, and `Outside` what it talks to.

**AES.** The source's tables and shortcuts are tied to GF(2^8) as FIPS 197 defines it, so that the inverse laws
hold for a reason and not by tabulation. `AesCipher` writes the cipher out with the numbers of that standard.

**RecursiveMutex.** Each load, each store and each operation of the inner mutex is a step of its own, and runs are
arbitrary interleavings of any number of threads with nonzero ids. The class beside it runs one call, with the
moves of other threads while it waits, and is shown to be a run of that machine.

## What the proofs found

* `ReduceDigitsHelper` may skip to the end of the list after an earlier reduction has succeeded
  (`src/base/number_util.cc:700`), so that an accepted list can read as less than it denotes.
  `NumberMeaning.ReadNumberMeans` gives the exact condition, `NumberMeaning.OverrunExample` a list.
* A comment (`src/base/number_util.cc:212`) says that numbers with leading zeros are not converted; the code
  converts them, and so does the model.
* The data file has no entry for the thousand and the ten thousand of the old-kanji style, so
  `NormalizeNumbers` refuses many texts that `ArabicToKanji` prints in that style (`KanjiOldStyle.OldTextRead`).
* `EnsureCallCommand` (`src/client/client.cc:372`) replaces a session that another call has found missing without
  playing the journal; inputs are lost exactly when the journal is not empty (`ClientLimits.LateSendStartsOver`,
  `ClientLimits.EmptyJournalLosesNothing`, `ClientLimits.LossIsSeen`). A full journal is lost too
  (`ClientLimits.FullJournalIsSeen`).
* A playback that stops at a failed call (`src/client/client.cc:253-256`) does not stop the Send, which can be
  acknowledged by a session that lacks journal entries (`ClientLimits.SecondTrialAnswers`,
  `ClientLimits.StoppedPlaybackIsSeen`).
* `CheckVersionOrRestartServer` can leave `SERVER_FATAL`; `ClientSafety.FatalRevived` says exactly when, and
  `ClientSafety.FatalSilentIff` when it does nothing.
* The encoder drops bits of 0x4000000..0x7ffffff (`src/base/util.cc:569` against `:436`) and of everything from
  0x80000000 on, and emits nothing for 0 (`Utf8.RoundTrip`).
* `SplitCSV` drops an empty last field behind a quoted one (`Csv.SplitUndoesWriting`), unless blanks stand for it
  (`Csv.BlanksChangeNothing`), and an unclosed quote adds a
  field exactly when one doubled quote follows it and the line ends in a comma (`Csv.ExtraFieldIff`).
* `GetTotalMessageCount` is wrong exactly for the 72 largest sizes (`Sha1Padding.CountIsExact`,
  `Sha1Padding.CountOverflows`), and the stored bit length is right exactly below 2^61 bytes
  (`Sha1Padding.LengthIsExact`).

## Model

| member | source | states |
|---|---|---|
| AesTables.TablesAreInverse | src/base/unverified_aes256.cc:43-89 | The two 256-entry substitution tables are inverse permutations of each other. |
| AesField.SBoxIsAffineOfInverse | src/base/unverified_aes256.cc:43-65 | The forward table is not just any permutation: it is the multiplicative inverse in GF(2^8) followed by the affine map of section 5.1.1 of FIPS 197. |
| AesField.TimesAreProducts | src/base/unverified_aes256.cc:100-134 | The doubling function (named "mul3" in the source) and the shortcuts built on it are products with 2, 3, 9, 11, 13 and 14 in GF(2^8). |
| AesField.MixByteIsSum | src/base/unverified_aes256.cc:114-117 | A mixed byte is 2a + 3b + c + d in GF(2^8). |
| AesField.InvMixByteIsSum | src/base/unverified_aes256.cc:135-138 | An inversely mixed byte is 14a + 11b + 13c + 9d. |
| AesField.MixThenInvMix | src/base/unverified_aes256.cc:105-139 | The inverse matrix applied after the matrix gives every byte of the column back, for all four-byte columns. |
| AesField.InvMixThenMix | src/base/unverified_aes256.cc:105-139 | And the other way round. |
| AesRounds.ShiftRowsMovesRows | src/base/unverified_aes256.cc:235-291 | The byte swaps of ShiftRows and InvShiftRows move row r of the column-major state r columns to the left and back, as sections 5.1.2 and 5.3.1 of FIPS 197 ask. |
| AesRounds.ShiftRowsInverse | src/base/unverified_aes256.cc:235-291 | ShiftRows and InvShiftRows undo each other. |
| AesRounds.SubBytesInverse | src/base/unverified_aes256.cc:211-221 | SubBytes and InvSubBytes undo each other. |
| AesRounds.SubShiftInverse | src/base/unverified_aes256.cc:211-291 | Substituting and shifting is undone by shifting back and substituting back, in that order. |
| AesRounds.MixColumnInverse | src/base/unverified_aes256.cc:105-139 | MixColumnsImpl and InvMixColumnsImpl undo each other on every column. |
| AesRounds.MixColumnsInverse | src/base/unverified_aes256.cc:223-233 | MixColumns and InvMixColumns undo each other on every block. |
| AesRounds.RoundsInverse | src/base/unverified_aes256.cc:293-319 | Any number of rounds, followed by as many inverse rounds with the round keys in reverse order, is the identity. |
| AesRounds.InvRoundsInverse | src/base/unverified_aes256.cc:293-319 | The same with the inverse rounds first. |
| AesRounds.DecryptUndoesEncrypt | src/base/unverified_aes256.cc:293-319 | For every 240-byte schedule and every block, InverseTransformECB undoes TransformECB. |
| AesRounds.EncryptUndoesDecrypt | src/base/unverified_aes256.cc:293-319 | And TransformECB undoes InverseTransformECB. |
| AesCipher.MixColumnIsProduct | src/base/unverified_aes256.cc:105-118 | MixColumns is the product with the matrix of section 5.1.3 of FIPS 197, all four rows of it. |
| AesCipher.InvMixColumnIsProduct | src/base/unverified_aes256.cc:120-139 | InvMixColumns is the product with the matrix of section 5.3.3. |
| AesCipher.FullRoundAt | src/base/unverified_aes256.cc:297-301 | The bytes of a round from the bytes of the state before it: the matrix times the substituted diagonals, plus the round key. |
| AesCipher.LastRoundAt | src/base/unverified_aes256.cc:302-304 | The same for the last round, which mixes no columns. |
| AesCipher.CipherWrittenOut | src/base/unverified_aes256.cc:293-305 | TransformECB is Cipher of section 5.1 of FIPS 197 with fourteen rounds and the round keys at bytes 0, 16, .., 224 of the schedule, written out with these numbers. |
| AesCipher.LastKeyIsAdded | src/base/unverified_aes256.cc:302-304 | For all schedules equal on bytes 0..223 the two results differ by exactly the sum of the last sixteen bytes of the schedules. |
| Aes.XorBlock | src/base/unverified_aes256.cc:153-155 | The loop that adds sixteen bytes to a block of a buffer, in place, and touches no byte around it. |
| Aes.AddRoundKey | src/base/unverified_aes256.cc:93-98 | Adds the round key at an offset of the schedule to the block, and nothing else. |
| Aes.SubBytes | src/base/unverified_aes256.cc:211-215 | Maps every byte of the block through the table, in place. |
| Aes.InvSubBytes | src/base/unverified_aes256.cc:217-221 | The same with the inverse table. |
| Aes.RotateRowLeft | src/base/unverified_aes256.cc:238-245 | The five assignments that rotate one row by one column leave the other rows alone. |
| Aes.RotateRowRight | src/base/unverified_aes256.cc:254-261 | The same to the right. |
| Aes.SwapRow | src/base/unverified_aes256.cc:247-252 | Two swaps move a row by two columns. |
| Aes.ShiftRowsInPlace | src/base/unverified_aes256.cc:235-262 | The assignments amount to ShiftRows of FIPS 197 on the old block. |
| Aes.InvShiftRowsInPlace | src/base/unverified_aes256.cc:264-291 | The assignments amount to the inverse of ShiftRows. |
| Aes.ColumnMultiples | src/base/unverified_aes256.cc:106-113 | The first loop collects what the four sums need. |
| Aes.MixColumnsImpl | src/base/unverified_aes256.cc:105-118 | Writes the mixed column in place, reading only old values, and no other byte. |
| Aes.InverseMultiples | src/base/unverified_aes256.cc:126-133 | One round of the loop gives the products with 9, 11, 13 and 14. |
| Aes.InverseColumnMultiples | src/base/unverified_aes256.cc:121-134 | The whole loop gives the products of all four bytes. |
| Aes.InvMixColumnsImpl | src/base/unverified_aes256.cc:120-139 | Writes the inversely mixed column in place and no other byte. |
| Aes.MixColumnsInPlace | src/base/unverified_aes256.cc:223-227 | All four columns of the block. |
| Aes.InvMixColumnsInPlace | src/base/unverified_aes256.cc:229-233 | All four columns of the block. |
| Aes.TransformECB | src/base/unverified_aes256.cc:293-305 | The in-place cipher computes the cipher function of the old block and leaves the rest of the buffer alone. |
| Aes.InverseTransformECB | src/base/unverified_aes256.cc:307-319 | The in-place decipher computes its inverse. |
| AesKeySchedule.ChunkStart | src/base/unverified_aes256.cc:191-195 | The four bytes that start a 32-byte chunk are those of the word recursion with RotWord, SubWord and the round constant. |
| AesKeySchedule.ChunkMiddle | src/base/unverified_aes256.cc:202-204 | The four bytes in the middle of a chunk are those of the recursion with SubWord. |
| AesKeySchedule.ChunkOther | src/base/unverified_aes256.cc:196-207 | All other bytes are those of the recursion without substitution. |
| AesKeySchedule.RconIsShift | src/base/unverified_aes256.cc:187-191 | A shifted 1 is the power of x that FIPS 197 wants, in all chunks there are. |
| AesKeySchedule.ScheduleWrittenOut | src/base/unverified_aes256.cc:181-209 | Every byte of the schedule: the key, then each byte from the one 32 places earlier and those just before it, with the indices of the source. |
| AesKeySchedule.MakeKeySchedule | src/base/unverified_aes256.cc:181-209 | For every key the loops fill exactly the 240 bytes with the key expansion of section 5.2 of FIPS 197. |
| AesKeySchedule.FillStart | src/base/unverified_aes256.cc:191-195 | The part of it that starts a chunk. |
| AesKeySchedule.FillPlain | src/base/unverified_aes256.cc:196-207 | The two loops that use no table. |
| AesCbc.DecryptUndoesEncryptCbc | src/base/unverified_aes256.cc:143-179 | Chained deciphering undoes chained enciphering (section 6.2 of NIST SP 800-38A) over any number of blocks, for every key and initial vector. |
| AesCbc.EncryptUndoesDecryptCbc | src/base/unverified_aes256.cc:143-179 | And the other way round. |
| AesCbc.EncryptCbcBlock | src/base/unverified_aes256.cc:143-159 | Each ciphertext block is the cipher of the plaintext block added to the ciphertext block before it, or to the initial vector (section 6.2 of NIST SP 800-38A). |
| AesCbc.DecryptCbcBlock | src/base/unverified_aes256.cc:161-179 | Each plaintext block is the deciphered block added to the ciphertext block before it, or to the initial vector. |
| AesCbc.TransformCBC | src/base/unverified_aes256.cc:143-159 | The in-place loop computes chained enciphering of the first blocks and keeps the bytes behind them. |
| AesCbc.InverseTransformCBC | src/base/unverified_aes256.cc:161-179 | The in-place loop, which must save each ciphertext block before it is overwritten, computes chained deciphering. |
| Encryptor.EncryptedSize | src/base/encryptor.cc:116-122 | A whole number of blocks, and always larger than the input by one byte to one block. |
| Encryptor.UnpadIffPad | src/base/encryptor.cc:235-255 | Padding is unique (section 6.3 of RFC 5652): the checks of DecryptArray accept exactly the padded non-empty messages, each as its own message. |
| Encryptor.DecryptIffEncrypt | src/base/encryptor.cc:183-257 | A ciphertext opens to p if and only if p is not empty and the ciphertext is what p encrypts to. |
| Encryptor.CiphertextBlock | src/base/encryptor.cc:183-210 | The ciphertext, block by block: the padded message chained from the initial vector of the key and enciphered under its schedule. |
| Encryptor.PadBytes | src/base/encryptor.cc:195-204 | The message, then k bytes of value k, where k fills up the last block of 16. |
| Encryptor.EncryptsIff | src/base/encryptor.cc:155-167 | EncryptString succeeds exactly with an available key and a non-empty string; a failed call keeps the text in front. |
| Encryptor.DecryptsIff | src/base/encryptor.cc:169-181 | DecryptString succeeds with p exactly on what p encrypts to, under an available key. |
| Encryptor.FailedDecryption | src/base/encryptor.cc:169-181 | A failed decryption leaves the string as it was, or, when only the padding was wrong, deciphered, so that enciphering it gives the input again. |
| Encryptor.DecryptUndoesEncryptString | src/base/encryptor.cc:155-181 | For every available key and non-empty string, DecryptString after EncryptString succeeds and restores the string. |
| Encryptor.EncryptUndoesDecryptString | src/base/encryptor.cc:155-181 | Whenever DecryptString succeeds, encrypting its result again gives the original ciphertext. |
| Encryptor.EncryptArray | src/base/encryptor.cc:183-210 | Succeeds exactly for an available key and a non-empty buffer; then the buffer holds the ciphertext; otherwise nothing has changed. |
| Encryptor.DecryptArray | src/base/encryptor.cc:212-257 | When it succeeds, when it fails, what the buffer holds in each case (a badly padded buffer is left deciphered) and the new size. |
| Encryptor.EncryptString | src/base/encryptor.cc:155-167 | The string after success and after each failure. |
| Encryptor.DecryptString | src/base/encryptor.cc:169-181 | The string after success and after each failure. |
| CheckedArithmetic.AddAndCheckOverflow | src/base/number_util.cc:537-545 | True exactly when the sum fits in 64 bits; the output is the sum, or the sum less 2^64. |
| CheckedArithmetic.MultiplyAndCheckOverflow | src/base/number_util.cc:549-557 | True exactly when the product fits in 64 bits, and then the output is the product. |
| CheckedArithmetic.ProductFits | src/base/number_util.cc:549-557 | The division in the guard decides exactly that. |
| NumberReader.ReduceBase10Exact | src/base/number_util.cc:614-630 | A run of digits is read as its positional value if and only if that is below 2^64. |
| NumberReader.GroupBound | src/base/number_util.cc:750-771 | What the four reducers find adds up to less than 10000, for every list of 64-bit tokens, so the unchecked additions cannot overflow. |
| NumberReader.GroupsWellFormed | src/base/number_util.cc:783-808 | Accepted groups have coefficients below 10000 and strictly decreasing bases of at least 10000, each below the one given. |
| NumberReader.InterpretExact | src/base/number_util.cc:783-808 | The reader accepts exactly the lists whose groups have an unwrapped sum of coefficient times base below 2^64, and returns that sum. |
| NumberMeaning.GivesUpIff | src/base/number_util.cc:698-702 | When exactly the branch that skips to the end of the list is taken. |
| NumberMeaning.ReadNumberMeans | src/base/number_util.cc:674-824 | An accepted list never reads as more than it denotes, and reads as exactly what it denotes if and only if no 100 or 1000 in it is overrun by digits. |
| NumberMeaning.NoNeighboursNoOverrun | src/base/number_util.cc:698-702 | Lists without two neighbouring values below 10 are never overrun. |
| NumberMeaning.OverrunExample | src/base/number_util.cc:700-700 | [2, 1000, 3, 4, 5, 6] denotes 5456 and is accepted as 2000. |
| NumberGrammar.StageIff | src/base/number_util.cc:674-777 | From any stage of the cascade on, if nothing is overrun, the reducers accept what the grammar of groups does. |
| NumberGrammar.GroupIff | src/base/number_util.cc:750-777 | One group is accepted exactly when it follows the grammar: ranked parts in falling order, then digits below the last rank, then the end or a falling big base. |
| NumberGrammar.GroupsIff | src/base/number_util.cc:783-808 | A list without an overrun splits into groups exactly when it is grammatical. |
| NumberGrammar.GroupsMean | src/base/number_util.cc:783-808 | And then the groups sum up to what it means. |
| NumberGrammar.ReadExactly | src/base/number_util.cc:674-824 | For every list of values: it is accepted if and only if the part of it up to the first overrun follows the grammar, which mentions no reducer, and means less than 2^64; it then reads as that meaning. |
| NumberGrammar.GrammaticalIsRead | src/base/number_util.cc:674-824 | So every grammatical list that is not overrun and means less than 2^64 is read as what it means. |
| NumberPrinter.GroupRead | src/base/number_util.cc:274-294 | A printed group of four digits, in any of the notations, is reduced to its value, or refused when the notation makes it unreadable. |
| NumberPrinter.PrintedGroups | src/base/number_util.cc:270-298 | The groups read from a printed number are its own groups, and one unreadable group spoils the whole. |
| NumberPrinter.ReadPrinted | src/base/number_util.cc:674-808 | On values: what is printed reads back as the number if and only if every group is readable and the number is below 2^64; it is refused otherwise. In old kanji a group is unreadable exactly when its tens or hundreds digit is 1. |
| KanjiText.DecimalOfPositional | src/base/number_util.cc:894-895 | Printing a number in decimal undoes reading it, for digits without leading zeros. |
| KanjiText.ZerosThenDecimal | src/base/number_util.cc:878-895 | The zeros that are kept, followed by the printed number, are the digits of the input again, also when all of them are zero. |
| KanjiText.AsciiUnchanged | src/base/number_util.cc:827-896 | With trim_leading_zeros false every string of ASCII digits below 2^64 is returned unchanged, and every other one refused. |
| KanjiReading.TokenIffListed | src/data/preedit/kanjinumber-arabicnumber.tsv:1-44 | A character has exactly the value that its line in the data file gives it, and none without a line. |
| KanjiReading.NormalizeExactly | src/base/number_util.cc:827-896 | For every text: NormalizeNumbers accepts it if and only if all its characters are in the data file and their values, up to the first overrun, are grammatical and mean less than 2^64; it returns that meaning in decimal, behind the leading zeros unless they are trimmed. |
| KanjiReading.FigureToKanji | src/base/number_util.cc:854-861 | What becomes of one character: a figure of either width becomes its numeral, any other stays. |
| KanjiReading.KanjiFormReads | src/base/number_util.cc:851-862 | The kanji form of a text has no figures left, and its characters have the values of the text. |
| KanjiPrinter.NumberHasTokens | src/base/number_util.cc:269-298 | The text ArabicToKanji prints, character by character, is the notation of the digits. |
| KanjiRoundTrip.FilledKeepsNumber | src/base/number_util.cc:229-235 | Filling up to whole groups with zeros keeps the number. |
| KanjiRoundTrip.ReadAny | src/base/number_util.cc:827-896 | NormalizeNumbers on any text whose characters stand for a printed number: exactly when it is accepted, and the output. |
| KanjiRoundTrip.TextRoundTrip | src/base/number_util.cc:201-323 | For every digit string of at most 20 digits that is not zero, leading zeros allowed, the kanji and both mixed texts come back as exactly the number when it is below 2^64 and are refused when it is not. |
| KanjiRoundTrip.KanjiRoundTrip | src/base/number_util.cc:851-860 | In kanji style the kanji form that comes back is the printed text itself. |
| KanjiOldStyle.OldTextRead | src/base/number_util.cc:254-302 | The old-kanji text is accepted exactly when the number is below 2^64, no group has 1 as its tens or hundreds digit, and no printed character is missing from the data file; it then reads as the number. |
| KanjiOldStyle.TwentyTextRead | src/base/number_util.cc:304-310 | The variant with the one-character twenty is accepted in the same cases, with the same number. |
| KanjiOldStyle.SingleKanji | src/base/number_util.cc:312-318 | The one-character entries for 10 and 1000: the first reads as 10, the second is refused. |
| KanjiOldStyle.NeverMisread | src/base/number_util.cc:201-323 | Nothing ArabicToKanji produces, for any input and in any style, is ever read back as another number. |
| KanjiOldStyle.EntryKinds | src/base/number_util.cc:245-320 | Which entries there can be for a number. |
| KanjiSpelling.PrintedMeans | src/base/number_util.cc:269-298 | In all four notations what is printed means the number, however large it is. |
| KanjiSpelling.TextInAlphabet | src/base/number_util.cc:61-79 | Which characters each style writes: half-width text has only half-width figures, full-width text only full-width ones, and neither kanji style any. |
| KanjiSpelling.KanjiTextSpelled | src/base/number_util.cc:283-292 | In kanji style two numerals never meet, and a one is not written before a rank. |
| KanjiSpelling.MixedTextSpelled | src/base/number_util.cc:275-282 | In the mixed styles a zero stands behind another digit only, and at most four digits in a row. |
| KanjiSpelling.OldTextSpelled | src/base/number_util.cc:287-292 | In old kanji every rank stands behind a numeral. |
| KanjiSpelling.OldIsKanjiInOldCharacters | src/base/number_util.cc:254-302 | The old-kanji text is the kanji text in old characters with the ones before ranks written out. |
| KanjiSpelling.TwentyUndone | src/base/number_util.cc:305-310 | The variant has no two tens left, and is the text again when its twenties are written out. |
| KanjiOutput.FilledIsTenIff | src/base/number_util.cc:312-318 | The filled input is 0010 or 1000 exactly when at most four digits denote 10 or 1000. |
| KanjiOutput.EveryEntryMeans | src/base/number_util.cc:201-323 | Every entry, of any style and for every input, means the number. |
| KanjiOutput.ConvertedAsPromised | src/base/number_util.cc:245-323 | For every decimal string of at most 20 digits that is not zero: there is exactly one kanji entry, which NormalizeNumbers gives back as the number, in its own spelling, exactly when that is below 2^64; one half-width and one full-width mixed entry, which do the same, exactly when there are more than four digits; and the old-kanji entry with its variants for twenty, 10 and 1000 exactly in their cases. |
| NumberUtil.ReduceLeadingNumbersAsBase10System | src/base/number_util.cc:614-630 | The loop reads as the recursive reducer does and leaves the iterator at the same place, also on overflow. |
| NumberUtil.ReduceOnesDigit | src/base/number_util.cc:646-655 | Takes one leading digit if there is one. |
| NumberUtil.SkipLeadingZeros | src/base/number_util.cc:677-680 | The loop skips all leading zeros. |
| NumberUtil.ReduceDigitsHelper | src/base/number_util.cc:674-725 | The helper, with its jump to the end of the list, as the recursive reducer. |
| NumberUtil.ReduceNumberLessThan10000 | src/base/number_util.cc:750-777 | The cascade of four reducers. |
| NumberUtil.InterpretNumbersInJapaneseWay | src/base/number_util.cc:783-808 | The loop computes the sum of which InterpretExact speaks. |
| NumberUtil.NormalizeNumbersHelper | src/base/number_util.cc:812-824 | The choice between plain digits and Japanese reading. |
| NumberUtil.NormalizeNumbers | src/base/number_util.cc:827-909 | The whole conversion of a text: whether it succeeds, and both outputs when it does. |
| NumberUtil.Segments | src/base/number_util.cc:237-243 | The loop cuts the digits into groups of four, the lowest first. |
| NumberUtil.PrintSegment | src/base/number_util.cc:271-294 | The inner loop prints one group. |
| NumberUtil.PrintNumber | src/base/number_util.cc:269-298 | The middle loop prints all groups with their ranks. |
| NumberUtil.ArabicToKanji | src/base/number_util.cc:201-323 | When it succeeds: exactly for decimal strings that are zero or have at most 20 digits. Nothing is appended otherwise, the one entry for zero, and for every other number exactly the entries of which ConvertedAsPromised speaks, in order. |
| ClientSafety.BrokenStep | src/client/client.cc:138-218 | A client that has given its server up does nothing in any call but Reset and CheckVersionOrRestartServer except to turn fatal, and Send, EnsureSession and EnsureConnection turn it fatal. |
| ClientSafety.BrokenRunIsSilent | src/client/client.cc:628-636 | Over every run of such calls nothing is sent, started or stopped, and a fatal client stays exactly as it is. |
| ClientSafety.FatalSilentIff | src/client/client.cc:738-811 | For a fatal client CheckVersionOrRestartServer sends, starts and stops nothing if and only if the protocol version it last saw is not too old, and then it changes nothing at all. |
| ClientSafety.FatalRevived | src/client/client.cc:738-811 | SERVER_FATAL is not for ever: CheckVersionOrRestartServer leaves it if and only if the last protocol version seen is too old, the old server can be ended, a new one started, and the second trial either is answered by a server that is not outdated or loses its server and another can be started. |
| ClientSafety.EnsuredIsOk | src/client/client.cc:189-218 | EnsureSession returns true only in status SERVER_OK. |
| ClientSafety.JournalStep | src/client/client.cc:243-307 | No public call, whatever the outside world does, lets the journal exceed 512 entries. |
| ClientSafety.JournalBounded | src/client/client.cc:243-307 | So over every run of calls from a new client. |
| ClientSafety.CallLogs | src/client/client.cc:628-716 | A call hands its request to a server at most once, and succeeds only after having done so with the right protocol version. |
| ClientSafety.RestartLogs | src/client/client.cc:765-797 | A restart starts at most one server and sends nothing but SHUTDOWN. |
| ClientSafety.CheckVersionOnce | src/client/client.cc:738-811 | For every sequence of outcomes and versions the input is issued at most twice and the server started at most once; on success the last thing that happened was the input, answered by a server that is not older than the client. |
| ClientOutcomes.BeforeIsOlder | src/base/version.cc:84-98 | A version is outdated exactly when both are known and its numbers come first in the order of words. |
| ClientOutcomes.CheckVersionIff | src/client/client.cc:738-811 | For every sequence of outcomes and versions: the call succeeds if and only if it is answered at once by a server of our protocol that is not older, or an older one is met (of an older product or protocol), ended politely or by force and replaced by such a server. The answer is that of the last trial. |
| ClientOutcomes.EnsureSessionIff | src/client/client.cc:189-218 | EnsureSession succeeds if and only if there is a session, or a server runs or can be started, CREATE_SESSION passes the version check, upgrades included, and the server asked last does not refuse a session. |
| ClientOutcomes.FirstSendUpgrades | src/client/client.cc:370-424 | A new client in front of an outdated server that can be replaced: its first input is acknowledged and answered by a session of the new server. |
| ClientOutcomes.NewerServerIsLeft | src/client/client.cc:680-687 | A server of a newer protocol is sent nothing and not replaced, and the client turns fatal. |
| ClientOutcomes.OldServerIsFatal | src/client/client.cc:738-811 | An old server that cannot be replaced by one that is not old turns the client fatal. |
| ClientOutcomes.FailureFate | src/client/client.cc:138-187 | After a call that fails, EnsureConnection goes on if and only if the server was lost and another can be started. |
| ClientOutcomes.FirstTrialFate | src/client/client.cc:370-391 | When exactly the first attempt of a Send leads to recovery, and when it gives the server up. |
| ClientOutcomes.RecoveryFate | src/client/client.cc:392-420 | Recovery acknowledges the input exactly when there is a session again and the second trial is answered; it empties the journal exactly when that trial fails, and without a session keeps it. |
| ClientOutcomes.GivingUpKeepsJournal | src/client/client.cc:370-391 | A Send that gets no session for its first attempt, or gives the server up at it, keeps the whole journal. |
| ClientOutcomes.ResetStartsAnew | src/client/client.cc:813-817 | After Reset a server is started as by a new client, with everything but status and protocol kept. |
| ClientRecovery.CheckVersionCreates | src/client/client.cc:443-475 | A CREATE_SESSION that succeeds has made a session, whether or not an outdated server had to be replaced for it. |
| ClientRecovery.EnsureMakesFresh | src/client/client.cc:189-218 | Whenever EnsureSession makes a session and its SET_REQUEST is executed, through whatever restarts and lost exchanges, that session is in its base state and the journal is kept. |
| ClientRecovery.PlaybackReplays | src/client/client.cc:243-258 | However far playing the journal back gets before a call fails, it brings the session to the state that the executed entries denote, changes only the session ids in the journal, and gets to the end when every entry is answered. |
| ClientRecovery.PushKeepsReplay | src/client/client.cc:260-284 | Pushing an acknowledged input keeps the journal equivalent to the session, also when a committing key empties it. |
| ClientRecovery.FirstTrialCases | src/client/client.cc:370-391 | The first attempt reaches the session in the ideal state, or finds it gone, or gives the server up. |
| ClientRecovery.RecoveryServes | src/client/client.cc:392-418 | Recovery that does not fail delivers the input to a session in the ideal state, however the session came about, server upgrades included. |
| ClientRecovery.SendFromOk | src/client/client.cc:370-424 | A Send on an established session is answered as the ideal session answers it if the first attempt does not give the server up, and otherwise is not acknowledged. |
| ClientRecovery.SendStep | src/client/client.cc:370-424 | A Send from any healthy client: acknowledged, it is in the ideal session and answered by it; otherwise the ideal session has not seen it; the client is healthy afterwards in both cases. |
| ClientRecovery.RunIsIdeal | src/client/client.cc:316-424 | Over every run of Sends in which recovery itself does not fail, after every Send the ideal session is the one that received each acknowledged input exactly once and in order, acknowledged inputs were answered by it, and journal, server session and ideal session agree. Sends that get no session at all, first sessions made through a version restart, and crashes at any first attempt are included. |
| ClientRecovery.NewClientIsIdeal | src/client/client.cc:99-117 | The same from a new client. |
| ClientOneCrash.SendDespiteCrash | src/client/client.cc:370-424 | A Send of a run with one crash is acknowledged and answered as by the ideal session, before, at and after the crash, and the journal grows as the ideal session consumes and commits. |
| ClientOneCrash.RunDespiteCrash | src/client/client.cc:316-424 | Runs of any length with one crash satisfy the assumptions of RunIsIdeal and every Send in them is acknowledged, as long as no more than 512 inputs are consumed between commits. |
| ClientOneCrash.OneCrashIsInvisible | src/client/client.cc:316-424 | For a new client that has made its first session and a run of any length without a context of more than 512 inputs, if nothing goes wrong but one crash at any time (server, sessions, connection or answer lost, the request executed or not), every input is acknowledged and answered exactly as by a session that never crashed. |
| ClientLimits.LateSendStartsOver | src/client/client.cc:370-375 | A session found missing before a Send begins is replaced without playback: the input reaches a session that has seen none of the journal. |
| ClientLimits.CommandLoses | src/client/client.cc:606-612 | Any command that ends with the server gone leaves the journal as all that is left of the session; if it is empty, nothing is lost. |
| ClientLimits.EmptyJournalLosesNothing | src/client/client.cc:370-424 | For every kind of session and every command that ends with the server gone: with an empty journal the next Send is served as if nothing had happened. |
| ClientLimits.LossIsSeen | src/client/client.cc:370-375 | With a session that counts its inputs, a loss noticed by any command shows in the next answer if and only if the journal was not empty. |
| ClientLimits.FullJournalStartsOver | src/client/client.cc:244-247 | Recovery with 512 journal entries empties the journal and starts over. |
| ClientLimits.FullJournalIsSeen | src/client/client.cc:244-247 | With a session that counts its inputs, recovery that does not fail answers as the ideal session if and only if the journal is not full. |
| ClientLimits.CountingKeepsUp | src/client/client.cc:260-284 | Such a session never counts fewer inputs than the journal holds. |
| ClientLimits.SecondTrialAnswers | src/client/client.cc:253-256 | Playback that stops at a failed call does not stop the Send: the second trial, when it is answered, is answered from the state that the executed entries denote. |
| ClientLimits.FullPlaybackIsIdeal | src/client/client.cc:392-424 | If every entry is executed, the answer is that of the ideal session, for every kind of session. |
| ClientLimits.StoppedPlaybackIsSeen | src/client/client.cc:253-256 | With a session that counts its inputs, an acknowledged second trial is answered as by the ideal session if and only if every entry was executed. |
| ClientLimits.StopsAtOnce | src/client/client.cc:253-256 | A playback whose first call finds no server executes nothing. |
| MozcClient.Client.constructor | src/client/client.cc:99-117 | The initial fields. |
| MozcClient.Client.Call | src/client/client.cc:628-716 | Every branch of the call: status, versions, requests sent, result. |
| MozcClient.Client.CallAndCheckVersion | src/client/client.cc:614-626 | The version check after a failed call. |
| MozcClient.Client.CallCommand | src/client/client.cc:606-612 | A command for the current session. |
| MozcClient.Client.Shutdown | src/client/client.cc:546-553 | The result is that of waiting for the process, not that of the command. |
| MozcClient.Client.EnsureConnection | src/client/client.cc:138-187 | The transition of each of the eight statuses. |
| MozcClient.Client.RestartServer | src/client/client.cc:769-797 | Polite shutdown, forced termination, restart, and the status after each failure. |
| MozcClient.Client.CheckVersionOrRestartServerInternal | src/client/client.cc:738-811 | The loop of two trials. |
| MozcClient.Client.CheckVersionOrRestartServer | src/client/client.cc:355-368 | The public check, which falls back on EnsureConnection. |
| MozcClient.Client.CreateSession | src/client/client.cc:443-475 | A new session id, or the status after failure. |
| MozcClient.Client.EnsureSession | src/client/client.cc:189-218 | Connection, session and SET_REQUEST, in this order. |
| MozcClient.Client.ResetHistory | src/client/client.cc:287-307 | Empties the journal and changes nothing else. |
| MozcClient.Client.PlaybackHistory | src/client/client.cc:243-258 | The loop, which stops at the first call that fails. |
| MozcClient.Client.PushHistory | src/client/client.cc:260-284 | What the journal becomes. |
| MozcClient.Client.RetryCommand | src/client/client.cc:393-420 | The second trial. |
| MozcClient.Client.EnsureCallCommand | src/client/client.cc:370-424 | The whole Send. |
| MozcClient.Client.Reset | src/client/client.cc:813-817 | Back to SERVER_UNKNOWN with the journal kept. |
| MutexMachine.StepKeepsInv | src/base/thread.h:356-387 | Every atomic step of every thread keeps the invariant. |
| MutexMachine.RunKeepsInv | src/base/thread.h:356-387 | So it holds after every interleaving of any number of threads. |
| MutexMachine.MutualExclusion | src/base/thread.h:356-387 | In every interleaving at most one thread is between lock() and the matching unlock(), and it holds the inner mutex. |
| MutexMachine.OwnIdMeansInside | src/base/thread.h:356-366 | The unlocked fast path is safe: a thread about to compare finds its own id if and only if it is inside, and reads its id only while it holds the inner mutex. The same for owns_lock() between calls. |
| MutexMachine.DepthIsNesting | src/base/thread.h:375-387 | Between calls the depth is the number of locks less unlocks of the thread inside. |
| MutexMachine.NoRaceOnDepth | src/base/thread.h:404-405 | Only the holder of the inner mutex is ever about to read or write the depth. |
| MutexMachine.DepthMovesByOne | src/base/thread.h:356-387 | The separate load and store of the depth never lose an update. |
| MutexMachine.ChecksHold | src/base/thread.h:350-378 | The debug checks of lock(), unlock() and the destructor cannot fail. |
| MutexMachine.NoDeadlock | src/base/thread.h:356-387 | A thread in a call can go on unless another thread is inside or in the middle of a call that can go on; no thread waits for itself. |
| RecursiveMutexClass.OthersLeaveAlone | src/base/thread.h:356-387 | What a thread is about to do does not depend on the moves that others make meanwhile. |
| RecursiveMutexClass.RecursiveMutex.Lock | src/base/thread.h:356-373 | The statements of lock(), with whatever moves of other threads free the inner mutex while it waits, are a run of the machine, and the fields after it. |
| RecursiveMutexClass.RecursiveMutex.Wait | src/base/thread.h:367-367 | The fields after the moves of the others. |
| RecursiveMutexClass.RecursiveMutex.Unlock | src/base/thread.h:375-387 | The same for unlock(). |
| RecursiveMutexClass.RecursiveMutex.OwnsLock | src/base/thread.h:390-392 | True if and only if the thread is inside. |
| Sha1Padding.BigEndianReadsBack | src/base/unverified_sha1.cc:164-168 | The big-endian bytes read back as the length modulo their range. |
| Sha1Padding.GapIsSmallest | src/base/unverified_sha1.cc:161-162 | The number of zero bytes is the smallest that fills whole blocks. |
| Sha1Padding.PaddingBytes | src/base/unverified_sha1.cc:138-168 | Every byte of the padded message: the message, 0x80, zeros up to the last eight, and in these the bit length. |
| Sha1Padding.CountIsExact | src/base/unverified_sha1.cc:175-187 | For every message whose size fits in 64 bits the block count is exactly that of the padded message if and only if the size plus 72 does not overflow. |
| Sha1Padding.CountOverflows | src/base/unverified_sha1.cc:185-186 | For each of the 72 largest sizes the count is zero, or one for the last eight of them. |
| Sha1Padding.LengthIsExact | src/base/unverified_sha1.cc:164-168 | The last eight bytes are the bit length of the message if and only if it is shorter than 2^61 bytes. |
| Sha1Padding.LateBlock | src/base/unverified_sha1.cc:138-168 | What a block behind the last full one holds, whether the length fits into it or not. |
| Sha1Padding.PaddedMessageIterator.FillNextMessage | src/base/unverified_sha1.cc:121-169 | Fills the buffer with the block of the padded message (section 5.1.1 of FIPS 180-4) that belongs to the current index. |
| Sha1Padding.PaddedMessageIterator.FillRest | src/base/unverified_sha1.cc:150-168 | The end of it. |
| Sha1Padding.MessageBlocks | src/base/unverified_sha1.cc:194-205 | The blocks the loop processes are, one after another, a prefix of message, 0x80, zeros and length, and all of it if and only if the size computation does not overflow. |
| Utf8.EncodedIsRead | src/base/util.cc:382-470 | What the decoder makes of any encoded codepoint, with anything behind it. |
| Utf8.RoundTrip | src/base/util.cc:382-586 | Decoding encode(c) followed by r gives c and r if and only if c is in 1..0x3ffffff or 0x8000000..0x7fffffff. |
| Utf8.SplitIsEncoding | src/base/util.cc:382-470 | A string that splits into c and rest is encode(c) followed by rest if and only if c is in these ranges, so no longer form is accepted; the encoding never is the longer one. |
| Utf8Standard.EncodeIsStandard | src/base/util.cc:535-586 | Below 2^31 the encoder writes the octets of section 2 of RFC 2279 exactly for the codepoints in these ranges. |
| Utf8Standard.SplitFirstIff | src/base/util.cc:382-470 | For all strings: one reads as c and rest if and only if it is the octets that RFC 2279 gives c, followed by rest, for every c below 2^31, 0 included. |
| Utf8Standard.SplitLastIff | src/base/util.cc:472-508 | SplitLastChar32 takes off c and leaves rest if and only if the string is rest followed by these octets. |
| Utf8Standard.DecodeStopsAtInvalid | src/base/util.cc:352-359 | Reading stops at the first place where no such octets start, and has read everything before it. |
| Utf8Standard.PeelStopsAtInvalid | src/base/util.cc:80-97 | Reading from the end stops where no such octets end, and leaves what is before that. |
| Utf8Strings.DecodeUndoesEncode | src/base/util.cc:352-367 | A list of codepoints survives Utf32ToUtf8 and Utf8ToUtf32 if and only if every member is in these ranges. |
| Utf8Strings.EncodeUndoesDecode | src/base/util.cc:352-367 | A string survives Utf8ToUtf32 and Utf32ToUtf8 if and only if it is valid and all its codepoints are in these ranges. |
| Utf8Strings.SplitLastOfValid | src/base/util.cc:472-508 | On a non-empty valid string SplitLastChar32 takes off the codepoint that is read last from the front, and leaves a valid string that reads as all the others. |
| Utf8Strings.PeelReverses | src/base/util.cc:80-97 | On every valid string the reverse iterator yields the reverse of what the forward iterator yields, and uses up the string. |
| Utf8Strings.PeelConsumesExactlyValid | src/base/util.cc:472-520 | Peeling from the end uses up a string if and only if IsValidUtf8 accepts it. |
| Utf8Util.Classify | src/base/util.cc:404-447 | The table of leading bytes. |
| Utf8Util.AddTrailing | src/base/util.cc:454-462 | The loop over trailing bytes. |
| Utf8Util.SplitFirstChar32 | src/base/util.cc:382-470 | The whole decoder, including what it returns on each failure. |
| Utf8Util.SplitLastChar32 | src/base/util.cc:472-508 | The backward scan and the decoding of the last piece. |
| Utf8Util.Utf8ToUtf32 | src/base/util.cc:352-359 | The loop yields all codepoints up to the first failure. |
| Utf8Util.Utf32ToUtf8 | src/base/util.cc:361-367 | The loop appends all encodings. |
| Utf8Util.CodepointToUtf8Append | src/base/util.cc:528-533 | Appends through the seven-byte buffer. |
| Utf8Util.CodepointToUtf8 | src/base/util.cc:535-586 | Every branch writes the encoding and a NUL within the buffer. |
| Utf8Util.IsValidUtf8 | src/base/util.cc:510-520 | True if and only if every byte belongs to a codepoint. |
| Utf8Util.ConstChar32Iterator.constructor | src/base/util.cc:62-65 | The iterator starts with all codepoints ahead. |
| Utf8Util.ConstChar32Iterator.Get | src/base/util.cc:67-70 | The first of those ahead. |
| Utf8Util.ConstChar32Iterator.Next | src/base/util.cc:72-76 | Drops the first of those ahead. |
| Utf8Util.ConstChar32ReverseIterator.constructor | src/base/util.cc:80-84 | The iterator starts with all codepoints ahead, last to first. |
| Utf8Util.ConstChar32ReverseIterator.Get | src/base/util.cc:86-89 | The first of those ahead. |
| Utf8Util.ConstChar32ReverseIterator.Next | src/base/util.cc:91-95 | Drops the first of those ahead. |
| Utf8Util.CollectForward | src/base/util.h:265-271 | The loop for which the forward iterator is made sees the codepoints Utf8ToUtf32 gives. |
| Utf8Util.CollectBackward | src/base/util.h:288-295 | On a valid string the same loop with the reverse iterator sees them in reverse. |
| Csv.Find | src/base/util.cc:241-244 | The search for the comma. |
| Csv.UnquoteInPlace | src/base/util.cc:232-240 | The two-pointer loop: the write pointer never passes the read pointer, the text it leaves is the unquoted one, and the buffer from the write pointer on is untouched. |
| Csv.ReadField | src/base/util.cc:227-246 | One field, quoted or not. |
| Csv.SplitCSV | src/base/util.cc:217-258 | For every input the fields are those of the specification, and every access is inside the string and its terminator. |
| Csv.FieldReads | src/base/util.cc:227-254 | A written field is read as its text, wherever it stands in the line. |
| Csv.SplitUndoesWriting | src/base/util.cc:217-258 | However fields are written, quoted or plain, with spaces and tabs before them and anything but a comma behind the quotes, splitting gives exactly their texts if and only if the line does not end in an empty plain field, without blanks, alone or behind a quoted one. |
| Csv.SplitUndoesQuoting | src/base/util.cc:217-258 | Any list of texts comes back when all are quoted with doubled inner quotes (section 2 of RFC 4180). |
| Csv.BlanksChangeNothing | src/base/util.cc:227-229 | Spaces and tabs before fields change nothing, with one exact exception: blanks that stand for an empty last field which without them would be lost. |
| Csv.UnclosedTextReads | src/base/util.cc:226-257 | A line that is one text behind an opening quote, never closed, gives that text, and an extra field exactly when there is one quote in it and it ends in a comma. |
| Csv.UnquoteCounts | src/base/util.cc:232-240 | The unquoting loop loses one character for every doubled quote and one for the closing quote, and stops behind that, or at the end when there is none. |
| Csv.ExtraFieldIff | src/base/util.cc:247-254 | A quoted field brings an extra, empty, field if and only if its quote is never closed, exactly one doubled quote is in it, and the line ends in a comma. |
| Csv.ExtraFieldAdded | src/base/util.cc:226-257 | What a line that ends in an unclosed quote is split into. |
| Csv.UnclosedQuoteAddsField | src/base/util.cc:247-254 | A line with the extra field. |
| Graphemes.PreviousRegional | src/base/util.cc:149-199 | What the one variable of the loop knows: it is a regional indicator exactly after an odd number of them. |
| Graphemes.SplitStringToUtf8Graphemes | src/base/util.cc:136-215 | The loop with its one variable breaks the text exactly where the position-by-position rule does, which for flags is that of rules GB12 and GB13 of section 3.1.1 of UAX #29. |
| Graphemes.FlattenPieces | src/base/util.cc:136-215 | The graphemes one after another are the text, and none is empty. |
| Graphemes.SplitsExactlyAtBreaks | src/base/util.cc:136-215 | Splitting a text cut in two gives its graphemes if and only if it breaks at the cut. |
| Graphemes.PieceIsOnePiece | src/base/util.cc:136-215 | Splitting a grapheme again gives just that grapheme. |
| Graphemes.FlagsPairUp | src/base/util.cc:171-199 | Any m regional indicators make ceil(m/2) graphemes. |
| Graphemes.JoinsIffListed | src/base/util.cc:149-199 | Apart from flags, which codepoints join the grapheme before them, by their numbers: sound marks, variation selectors, skin tones, tags, joiners, whatever follows a joiner, and the keycap behind the emoji presentation. |
| Graphemes.FlagJoinsIff | src/base/util.cc:171-199 | In a run of flag letters, wherever it stands, a letter joins exactly when an odd number of the run precedes it, or a joiner stands before the run. |

## Left out

- NumberUtil.NormalizeNumbers: does not model `NormalizeNumbersWithSuffix` nor what the outputs hold after a refusal.
- NumberUtil.ArabicToKanji: appends to an empty list of entries; the other conversions to separated, wide, circled or Roman digits, and other radixes, are table look-ups and not modelled.
- KanjiText.TokenOf: takes the lookup of a character in the double array as given by the data file, and characters, not UTF-8 bytes, as the elements of a text.
- ClientRecovery.RunIsIdeal: covers runs of the three Send calls in which recovery does not fail. A loss found by another call, a full journal and a playback that stops halfway are the subject of ClientLimits; for a SET_REQUEST that is not executed, and a session dropped again during recovery, nothing is claimed.
- MozcClient.Client.Call: leaves out message serialization, an absent client factory, time-outs as numbers and process ids; transport is the oracle of outcomes.
- MozcClient.Client.EnsureConnection: leaves out the error dialogs of `OnFatal`, which change no state of the client.
- MozcClient.Client.PushHistory: leaves out the last mode, which only the Apple variant reads; the Apple and DEBUG variants of the journal are not modelled.
- MozcClient.Client.EnsureCallCommand: leaves out the dump of the journal to a file, and the preferences that are attached to an input.
- ClientModel.Serve: a server numbers its sessions upwards and never uses a number again, and SET_REQUEST acts on the session it names; the real session handler is not part of this model.
- MutexMachine.Step: sequentially consistent interleaving, an unbounded depth, and only well-nested calls; weaker memory orders are not modelled.
- RecursiveMutexClass.RecursiveMutex.Lock: other threads move only while it waits for the inner mutex; moves between its other statements are in the machine.
- Sha1Padding.MessageBlocks: collects the blocks instead of compressing them; the compression function is not modelled.
- Sha1Padding.PaddedMessageIterator.FillNextMessage: is called only while there is a message, as the loop does.
- Aes.MixColumnsImpl: adds the terms of a sum in another order than the source; the shared loop of SubBytes and InvSubBytes, and the row movements, are methods of their own.
- Encryptor.EncryptArray: null buffers and sizes near 2^64 are left out; key derivation from a password and the data-protection calls of the operating system are not modelled.
- Utf8Util.SplitFirstChar32: always returns both outputs; the optional null pointers are left out.
- Graphemes.SplitStringToUtf8Graphemes: works on the list of codepoints; cutting the UTF-8 text into characters is taken as given.
- Csv.SplitCSV: bytes are characters below 256 in the source and any characters here.
- Files, processes, clocks, logging, launching tools, URL and bracket helpers, script types and text normalization tables: system calls, or members that would be easy.
