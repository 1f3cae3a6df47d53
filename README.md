# JY-FileEncrypterSigner, modelled in Dafny

JY-FileEncrypterSigner is a small Java command-line tool. It signs and
envelope-encrypts a file for a recipient, and it decrypts such an envelope.

**Encrypting side.** Given a keystore, the tool:
- digests the file (SHA-256, fed through a 1024-byte buffer);
- signs the digest with the sender's private key;
- generates an AES key and wraps it with the recipient's RSA certificate;
- encrypts the file into `<file>-encrypted`;
- writes a JSON "manifest" (the config map) into `<file>-config.json`.

**Decrypting side.** The tool reads a manifest, unwraps the AES key with its
own private key, and deciphers the file into `decrypted.txt`.

This project models the logic the authors wrote themselves. "Engines" below
means the cryptography, Base64 and JSON libraries.
- `Utils`: the argument parser, the presence check, the hexadecimal rendering,
  the stream copy loop and the file-system guards.
- The `Encrypt` program, with its own dash-keeping parser.
- `EncryptTool`: the validation, the alias-password fallback and the three
  path derivations.
- `StreamDigester`: the chunked digest loop.
- `Encrypter` and `Decrypter`: the keystore guards, the fields they set, the
  manifest written and read, and the order of the steps.

The model's layers:
- **Engines.** They are fields of an `Engines` record of arrow-typed functions,
  and the model leaves them open. A lemma with no hypothesis about the engines
  holds whatever they compute. The lemmas in `Envelope` name the laws they
  rely on: a JSON engine that reads back what it wrote, Base64 decoding that
  undoes encoding, a cipher that deciphers what it ciphered, and a key pair.
- **File system.** It is a map from absolute `Path` to `Entry`, held by a
  `FileSystem` object. The `Files` module builds `Paths.get`, `toString`,
  `toAbsolutePath` and `getParent`.
- **Input streams.** An input stream is the sequence of non-empty blocks its
  source still holds. One `read(buffer)` hands over at most a buffer-full of
  one block. How a `FileInputStream` splits a file into blocks is a parameter
  of the operations that open one, constrained only to concatenate to the
  file's content.
- **Mutable objects.** Objects the source mutates are classes whose methods
  are proved against pure functions:
  - `ParamMap`;
  - `MessageDigest`, which holds pending bytes and a ghost log of engine calls;
  - `InputStream`, `OutputStream`;
  - `KeyGenerator`;
  - `Encrypter`, `Decrypter`;
  - the `Encrypt` program's static map.

  Each pure function states the call's result and the new state
  (`Parse`, `Chunks`, `Updates`, `EncryptAndSignRun`, `DecryptAndValidateRun`, ...).
- **Properties.** They are lemmas over those functions.

Where the specification and the code disagree, the model follows the code:
- **The IV.** The code never wraps the IV and never puts it in the manifest.
  The decrypting side reads "iv" and Base64-decodes it without unwrapping.
- **The signature.** Decryption never digests the output and never verifies
  the signature. Decryption therefore reports no tampering.
- **The manifest path.** The encrypting side names the manifest after the
  source file. The decrypting side looks for it under the encrypted file's
  name.

## Model

| member | source | states |
|---|---|---|
| Common.Unsigned | src/Utils.java:62 | `b & 0xFF`: the byte's unsigned value, below 256 and congruent to it modulo 256; `Signed` inverts it |
| Utils.EnsureParamDefinition | src/Utils.java:28-32 | passes exactly when the key is present; otherwise the MissingFormatArgument message is "Missing argument: " + name; the map cannot change |
| Utils.ValueKey | src/Utils.java:54 | a value's key is the name minus its first character (the dash) in this parser, the whole name in the `Encrypt` one |
| Utils.ParseParams | src/Utils.java:39-57 | the loop with its manual index skip leaves the caller's map and the exception exactly as the recursive `Parse` describes, starting from the map it was given |
| Utils.ParseConcat | src/Utils.java:40-56 | a parse that completes over a prefix continues over the rest from the map it produced |
| Utils.ParseStopsAtBadName | src/Utils.java:43-45 | the first name without '-' ends the parse with IllegalArgument "Param: <name> should start with '-'"; the entries put before stay, and the rest of the arguments are never looked at |
| Utils.ParseSwitch | src/Utils.java:47-48 | a name equal to a switch as typed, dash included, is put under itself with "true" and takes no value |
| Utils.ParseNameValue | src/Utils.java:50-54 | any other name takes the next argument, unchecked, as its value under the name minus its dash |
| Utils.ParseTrailingName | src/Utils.java:51-53 | a non-switch name in last position reads past the end of the array (index out of bounds), with the earlier entries kept |
| Utils.ParseMakesPuts | src/Utils.java:47-54 | the parsed map is the starting map with the parse's `put` calls applied in order |
| Utils.ApplyLastPut | src/Utils.java:47-54 | after a run of puts, a key is present exactly when it was present before or was put; its value is that of its last put, otherwise its old value |
| Utils.Hex | src/Utils.java:59-67 | the rendering has two characters per byte |
| Utils.HexDigits | src/Utils.java:13-64 | every character of the rendering is one of "0123456789ABCDEF" |
| Utils.BytesToHex | src/Utils.java:59-67 | the character-array loop returns exactly `Hex(bytes)` |
| Utils.HexAt | src/Utils.java:62-64 | character 2j is the high nibble of byte j and character 2j+1 its low nibble |
| Utils.HexValue | src/Utils.java:13 | a digit read back stands for the index of that character in the hex alphabet |
| Utils.UnhexHex | src/Utils.java:59-67 | reading the rendering back in pairs gives the bytes again: the rendering is decodable |
| Utils.UnhexPair | src/Utils.java:62-64 | one byte's two characters, appended to a readable text, read back as that byte |
| Utils.PairDigits | src/Utils.java:62-64 | the two characters of a byte are hex digits whose value 16·hi+lo is the byte |
| Utils.HexInjective | src/Utils.java:59-67 | two byte strings with the same rendering are equal |
| Utils.PipeStreams | src/Utils.java:76-82 | the output receives one write per chunk read (each of 1 to 1024 bytes), in order; in all it is the whole input content appended to what it held; the input is left empty |
| Utils.EnsurePathReadable | src/Utils.java:90-100 | passes exactly when the source exists and is readable; otherwise FileNotFound "Source file not found …" or "Source cannot be read …" with the absolute path; nothing changes |
| Utils.EnsurePathWritable | src/Utils.java:108-118 | an existing destination gives IllegalArgument "File already exists in path …" and is left untouched; an uncreatable one gives an IO failure and nothing changes; otherwise a new empty file exists there afterwards and nothing else changes |
| Utils.WritableGuardPreserves | src/Utils.java:111-115 | a destination the guard creates was not there before: no existing file is ever replaced by it |
| Streams.InputStream.Read | src/Utils.java:79 | `read(buffer)` gives -1 at the end, otherwise the next chunk of at most the buffer's length, copied to the buffer's front with the rest of the buffer untouched, and the stream shrinks by it |
| Streams.OutputStream.Write | src/Utils.java:80 | `write(buffer, 0, n)` appends exactly the first n bytes of the buffer |
| Streams.ChunksConcat | src/Utils.java:79-81 | reading through a bounded buffer loses and reorders nothing: the chunks concatenate to the content |
| Streams.ChunksBounded | src/Utils.java:77-79 | every read hands over between 1 and the buffer's size bytes |
| Streams.BlockChunkSizes | src/StreamDigester.java:46-51 | n bytes delivered at once give n / cap full reads and then one of n % cap bytes when that is not zero |
| Streams.ReadStep | src/StreamDigester.java:50 | one read takes the first of the chunks still to come, and the unread content strictly shrinks |
| Digester.MessageDigest.Reset | src/StreamDigester.java:47 | `reset()` empties what the engine holds and records the call |
| Digester.MessageDigest.Update | src/StreamDigester.java:51 | `update(buffer, 0, n)` appends those n bytes to what the engine holds, and records the call |
| Digester.MessageDigest.Digest | src/StreamDigester.java:54 | `digest()` is the hash of everything fed since the last reset, after which the engine is empty |
| Digester.StreamDigester.DigestStream | src/StreamDigester.java:45-55 | the result is the hash of the whole stream content, whatever the engine held before (the reset) and however the stream is chunked; the engine sees exactly reset, one update(0, n) per chunk, then digest |
| Digester.StreamDigester.DigestFile | src/StreamDigester.java:64-68 | for any blocking of the file's bytes, the `Path` overload gives the hash of the whole file and the stream overload's calls over those blocks, leaving the engine empty; a file that cannot be opened throws before the engine is touched, its calls and pending bytes unchanged |
| Digester.DigestTraceShape | src/StreamDigester.java:47-54 | reset comes first and only there, digest last and only there, and every call between is an update at offset 0 of 1 to 1024 bytes |
| Digester.EmptyStreamTrace | src/StreamDigester.java:50 | an empty stream gives no update: just reset and digest |
| Digester.FullReadUpdates | test/TestStreamDigester.java:36-50 | for a stream whose reads fill the buffer (the test's `ByteArrayInputStream`), n bytes are fed as n / 1024 updates of 1024 bytes then one of n % 1024 when that is not zero |
| Digester.LargeStreamUpdates | test/TestStreamDigester.java:41-51 | 4266 copies of the 12-byte test message give 49 updates of 1024 bytes and one of 1016 |
| Digester.SmallStreamUpdates | test/TestStreamDigester.java:32-37 | the 12-byte test message is fed in exactly one update of its length |
| Digester.UpdateLengthsOfUpdates | src/StreamDigester.java:51 | the lengths of the updates made are the sizes of the chunks read |
| Crypto.GetKey | src/Encrypter.java:89 | `getKey` gives the entry's key exactly when its algorithm is available and the password matches, else NoSuchAlgorithm or UnrecoverableKey |
| Crypto.Resolve | src/Encrypter.java:80-95 | the key alias is checked first, then the certificate alias, then the key is recovered; both recovery failures become KeyStoreException "Bad private key password"; success gives the entry's key and the certificate |
| Crypto.KeyAliasCheckedFirst | src/Encrypter.java:80-82 | a missing key alias is reported whatever the certificate alias is |
| Crypto.KeyGenerator.Init | src/Encrypter.java:96 | a key size AES does not have is refused and leaves the generator as it was; otherwise the size is set |
| Crypto.KeyGenerator.GenerateKey | src/Encrypter.java:117 | the key has the configured size and is made of the drawn bytes |
| FileCipher.Guards | src/FileEncrypt.java:29-30 | the two guards pass exactly when the source is readable and the destination can be created, creating it; a failing guard changes nothing |
| FileCipher.EncryptRunEffect | src/FileEncrypt.java:28-40 | encryption changes at most the new destination; it succeeds exactly when the guards and the cipher's init pass; the destination then holds the ciphered source content |
| FileCipher.DecryptRunEffect | src/FileDecrypt.java:35-47 | decryption changes at most the new destination, which on success holds what the deciphering stream delivered |
| FileCipher.CreatedKeepsSource | src/FileEncrypt.java:29-30 | creating the destination leaves the source readable as before, and the destination writable |
| FileCipher.FileEncrypt | src/FileEncrypt.java:28-40 | the method's outcome and files are those of `EncryptRun` |
| FileCipher.FileDecrypt | src/FileDecrypt.java:35-47 | the method's outcome and files are those of `DecryptRun` |
| Encryption.Manifest | src/Encrypter.java:109-122 | the manifest has exactly the keys "sig" and "key" (no "iv"): the Base64 of the signature and of the wrapped key |
| Encryption.SignAndWrap | src/Encrypter.java:112-122 | succeeds exactly when the file opens, the key is set, signing the hash of the content succeeds, the certificate is set and wrapping the key's encoding succeeds; the values are that signature and that wrapped key |
| Encryption.Encrypter.Initialize | src/Encrypter.java:79-97 | a failed keystore check leaves the fields and the generator as they were; success sets my private key and the recipient's certificate and then initialises the generator with the key length |
| Encryption.Encrypter.EncryptAndSign | src/Encrypter.java:108-129 | the method's outcome and files are those of `EncryptAndSignRun`: digest, sign, generate, wrap, encrypt, then write the manifest; the digest engine is untouched when the file cannot be opened, and otherwise has seen one digest trace over the file's blocks and is left empty |
| Encryption.Encrypter.CreateConfigFileFor | src/Encrypter.java:138-146 | the JSON of the config is written to the config path, created or truncated without an existence check |
| Encryption.EncryptAndSignWrites | src/Encrypter.java:109-128 | after a successful run the config path holds the JSON of the manifest with exactly "sig" and "key", and the output, unless it is the config path itself, holds the ciphered content |
| Encryption.EncryptAndSignFailure | src/Encrypter.java:108-129 | a failed run writes no manifest and leaves every existing file as it was; at most the new output file remains |
| Encryption.SignedBeforeKeyGeneration | src/Encrypter.java:112-117 | a run that stops at reading or signing does not depend on the key or the IV that would have come next |
| Encryption.ConfigPathFor | src/Encrypter.java:139 | the manifest path is absolute and well formed; for a well-formed source it is the absolute source path with "-config.json" added to its last name, whatever the output is |
| Decryption.KeySpec | src/Decrypter.java:102 | `new SecretKeySpec` accepts exactly the non-empty encodings and keeps them |
| Decryption.DecodeEntry | src/Decrypter.java:99-103 | a missing manifest entry is `null`, and decoding it throws a NullPointerException; otherwise it is Base64-decoded |
| Decryption.Decrypter.Initialize | src/Decrypter.java:67-88 | the same checks in the same order as the encrypting side; success sets my private key and the sender's certificate, failure leaves both |
| Decryption.Decrypter.DecryptAndValidate | src/Decrypter.java:96-106 | the method's outcome and files are those of `DecryptAndValidateRun` |
| Decryption.ReadsOnlyKeyAndIv | src/Decrypter.java:96-106 | manifests that agree on "key" and "iv" give the same run: nothing else is read |
| Decryption.NeverVerifies | src/Decrypter.java:96-106 | the signing and verifying engines play no part in a decryption, and neither the digest nor the sender's certificate is an input to it |
| Decryption.MissingEntryFailsEarly | src/Decrypter.java:99-105 | a manifest without "key" or without "iv" fails before any file is created or written |
| Decryption.DecryptsWithManifestEntries | src/Decrypter.java:99-105 | on success the output holds the deciphering under the key unwrapped with my private key and the IV only Base64-decoded |
| EncryptProgram.Encrypt.ParseParams | src/Encrypt.java:74-92 | the loop leaves the static map and the exception as `Parse` with the empty switch list and dash-keeping keys describes |
| EncryptProgram.Encrypt.EnsureParamDefinition | src/Encrypt.java:63-67 | passes exactly when the key is present; the message names it; nothing changes |
| EncryptProgram.Encrypt.Run | src/Encrypt.java:29-42 | the entries parsed stay in the static map; the guide is printed exactly when `MainOutcome` fails, and with dash-led keys it always is |
| EncryptProgram.EnsureFileExists | src/Encrypt.java:50-56 | passes exactly when the file exists; otherwise FileNotFound "File <f> does not exist" |
| EncryptProgram.MainOutcome | src/Encrypt.java:30-38 | the `try` block completes exactly when the parse succeeded, the password and file keys it looks up are present and the file exists; a missing password key fails with "Missing argument: <key>" |
| EncryptProgram.ParsePutsDashedKeys | src/Encrypt.java:89 | every key this parser adds keeps the name's leading dash |
| EncryptProgram.NoSwitchTakesValue | src/Encrypt.java:82-89 | with the empty switch list every name takes the next argument as its value, a dash-led one included |
| EncryptProgram.GuideForWellFormedCall | src/Encrypt.java:35-41 | "-password p -file f" is stored under "-password" and "-file", so the check fails with "Missing argument: password" |
| EncryptProgram.CorrectedAcceptsWellFormedCall | src/Encrypt.java:35-37 | with that check "-password p -file f" succeeds for an existing file |
| Tool.FirstMissing | src/EncryptTool.java:160-164 | no required name is missing exactly when all are present; else it names a missing one |
| Tool.FirstMissingIsFirst | src/EncryptTool.java:160-164 | the names are checked in order: the first missing one is the one reported |
| Tool.CheckParams | src/EncryptTool.java:160-170 | passes exactly when keystore, password, myaliaspassword, recalias and file are present and exactly one of encrypt and decrypt is; failures are MissingFormatArgument |
| Tool.Validate | src/EncryptTool.java:154-187 | proceeds exactly when the parse and the presence checks pass and the file is readable; a parse or check failure prints the guide and exits; an unreadable file exits with a trace |
| Tool.ValidateInput | src/EncryptTool.java:154-187 | the static map ends as the parse leaves it, and the outcome is `Validate` of that parse |
| Tool.SwitchesNeverMatch | src/EncryptTool.java:18-21 | no argument ever equals a switch, since arguments start with '-' and the switch names do not; the parse is the one with no switches |
| Tool.DashSwitchTakesValue | src/EncryptTool.java:18-21 | "-encrypt" is the key "encrypt" and takes the next argument as its value |
| Tool.DocumentedUsageRejected | src/EncryptTool.java:38 | the guide's usage "-encrypt -keystore <file> …" puts "-keystore" under "encrypt", stops at the keystore file name, and exits with the guide |
| Tool.CaseSensitiveNames | src/EncryptTool.java:30 | "-myAliasPassword" as the guide spells it is stored as "myAliasPassword", and the check for "myaliaspassword" fails |
| Tool.MyAliasNotRequired | src/EncryptTool.java:160-164 | whether "myalias" is given never changes the validation |
| Tool.WorkingCall | src/EncryptTool.java:158-170 | "-encrypt yes" followed by the five lower-case pairs parses to those entries and validates for a readable file |
| Tool.CorrectedSwitchIsFlag | src/EncryptTool.java:18-21 | under it a switch takes no value |
| Tool.CorrectedAcceptsUsage | src/EncryptTool.java:158-170 | under it "-encrypt" or "-decrypt" followed by the five pairs validates, where the parse as written exits with the guide |
| Tool.AliasPassword | src/EncryptTool.java:95-97 | the alias password is myaliaspassword if given, else the keystore password |
| Tool.FallbackUnreachable | src/EncryptTool.java:95-97 | once validation passed, the fallback to the keystore password is never taken |
| Tool.DecryptedPathFor | src/EncryptTool.java:120 | the decrypted path fails with a NullPointerException exactly when the file as given has no parent |
| Tool.EncryptedPathFor | src/EncryptTool.java:101 | the encrypted output is absolute and well formed; for a well-formed source it is the absolute source path with "-encrypted" added to its last name |
| Tool.ConfigReadPathFor | src/EncryptTool.java:121 | the manifest the decrypting branch reads is the one the encrypter would write for the encrypted file itself, "-encrypted" included |
| Tool.DecryptedPathShape | src/EncryptTool.java:120 | when there is a parent, the output is "decrypted.txt" inside its absolute form |
| Tool.BareNameHasNoParent | src/EncryptTool.java:119-120 | a file given by a bare name has no parent, so the decrypting branch throws |
| Tool.CorrectedDecryptedPathShape | src/EncryptTool.java:120 | the corrected output is "decrypted.txt" beside the absolute file path, for every named file |
| Tool.CorrectedAgreesWithParent | src/EncryptTool.java:120 | where the code as written finds a parent, the corrected derivation gives the same path |
| Tool.ManifestNotWhereDecryptionLooks | src/EncryptTool.java:101-121 | decrypting the encrypted file of a source looks for "<source>-encrypted-config.json", not the "<source>-config.json" the encrypter wrote |
| Tool.CorrectedFindsManifest | src/EncryptTool.java:121 | the corrected config path of "<source>-encrypted" is the manifest written for the source |
| Tool.OutputIsNotManifest | src/EncryptTool.java:101 | the encrypted output and the manifest are different files |
| Tool.PlanFor | src/EncryptTool.java:81-121 | after validation the encrypting branch is taken exactly when "encrypt" was given, with the alias password from myaliaspassword |
| Tool.EncryptOutputIsNotSource | src/EncryptTool.java:100-101 | the encrypted output is never the source itself |
| Envelope.ManifestWithoutIvUndecryptable | src/Decrypter.java:103 | for a JSON engine that reads back what it wrote (as Gson does), after any successful encryption, decrypting with the manifest it wrote fails before any file is created, whatever the other engines and the keys are |
| Envelope.CorrectedManifest | src/Encrypter.java:109-122 | the corrected manifest holds "sig", "key" and the Base64 of the IV under "iv" |
| Envelope.CorrectedDiffersOnlyInManifest | src/Encrypter.java:109-128 | the correction changes only the manifest's content: same outcome, and every other file is the same |
| Envelope.CorrectedEnvelopeFiles | src/Encrypter.java:121-128 | after a corrected run the manifest holds the JSON of the corrected manifest and the output holds the ciphered content |
| Envelope.OpensEnvelope | src/Decrypter.java:96-106 | a manifest that carries the key wrapped for me and the IV decrypts the file back to the content it was ciphered from |
| Envelope.CorrectedRoundTrip | src/Encrypter.java:108-129 | given engines that invert each other and the recipient's key pair, and a manifest path that is free or a readable file, decrypting the corrected envelope recovers the source's content |
| Envelope.CorrectedToolRoundTrip | src/EncryptTool.java:101-121 | with the corrected manifest and manifest path, "-decrypt" on "<source>-encrypted" recovers the content of the source |

## Left out

- The cryptographic algorithms themselves, which are library code, are parameters of the `Engines` record: AES/CBC/PKCS5Padding, RSA/ECB/PKCS1Padding, SHA-256, SHA256withRSA, Gson and `java.util.Base64`. The round trips assume their inverse laws as hypotheses.
- The randomness of `SecureRandom` (the AES key bytes and the IV the cipher draws) is supplied by the caller.
- `DataSigner`, `ISigner`, `IDataSigner`, `IFileEncrypt`, `IFileDecrypt` and `IStreamDigester` hold no logic of their own: signing is the `sign` engine.
- `Program.java` is a leftover driver that calls a `Utils.ensureFileExists` that does not exist. It is not part of this model.
- Loading the keystore file (`loadKeystore`) is left out because it is I/O. The keystore is a map from alias to entry.
- The model does not capture JKS's case folding of aliases.
- The `null` alias that a missing "-myalias" passes to `isKeyEntry` is left out, because it is keystore-library behaviour.
- Console output, including the usage guide's text, is left out.
- Exit codes are left out: `System.exit(-1)` appears as `ExitWithGuide`/`ExitWithTrace`, and the final `System.exit(1)` is not modelled.
- `main` of `EncryptTool` is modelled as its branch decision (`PlanFor`) and the runs of the two classes. The line-by-line I/O sequence is not modelled.
- The tamper-notice overwrite after a `SignatureException` is left out. No modelled call throws one, because decryption never verifies.
- Closing streams, and failures during a read or write, are left out.
- `Paths.get` rejecting a NUL character (`InvalidPathException`) is left out.
- Utils.EnsurePathWritable: does not model `createNewFile` returning false ("File cannot be created"). That happens only when the file appears between the check and the create. Its IO failure message is simplified.
- Digester.StreamDigester.DigestFile: the FileNotFoundException message is simplified to the path.
- Digester.StreamDigester.DigestFile: the blocks in which the file stream delivers the file are supplied by the caller, as any blocking of the content; the model does not say which one a real `FileInputStream` picks.
- Envelope.ManifestWithoutIvUndecryptable: assumes the JSON engine reads back the map it wrote. An arbitrary parser could hand back a document that carries "iv", so the lemma cannot do without that hypothesis.
- The constructor `StreamDigester(String algorithm)` is left out: it only looks up an engine.
- `FileEncrypt.getIV()` is left out: it only returns the IV the cipher drew, and the model passes that IV in.
- Crypto.KeyGenerator.GenerateKey: requires the drawn bytes to match the configured key size. The real generator draws them itself.

## Findings

| source | as written | input that shows it | evidently intended | confidence | as-written member | corrected member |
|---|---|---|---|---|---|---|
| src/Encrypter.java:109-122 | the manifest gets "sig" and "key" only, while `decryptAndValidate` reads "iv" (src/Decrypter.java:103) | any successful `encryptAndSign`, then `decryptAndValidate` with its manifest: `config.get("iv")` is null and `Base64.decode(null)` throws | the IV the file cipher used is written to the manifest under "iv" | not executed | Envelope.ManifestWithoutIvUndecryptable | Envelope.CorrectedRoundTrip |
| src/EncryptTool.java:120 | the parent is taken of the path as typed | `-file secret.txt`: `Paths.get("secret.txt").getParent()` is null, and `toAbsolutePath()` on it throws | the directory of the absolute file path | not executed | Tool.BareNameHasNoParent | Tool.CorrectedDecryptedPathShape |
| src/EncryptTool.java:18-21 | the switches are "encrypt"/"decrypt", while `parseParams` compares the raw, dash-led argument (src/Utils.java:47) | the guide's usage `-encrypt -keystore ks.jks …`: "-encrypt" takes "-keystore" as its value, and "ks.jks" is refused as a name | "-encrypt" and "-decrypt" are flags | not executed | Tool.DocumentedUsageRejected | Tool.CorrectedAcceptsUsage |
| src/EncryptTool.java:121 | the manifest is looked for at "<encrypted file>-config.json" | encrypting `a.txt` writes `a.txt-config.json`; decrypting `a.txt-encrypted` reads `a.txt-encrypted-config.json` | the manifest written for the source of the encrypted file | not executed | Tool.ManifestNotWhereDecryptionLooks | Tool.CorrectedFindsManifest |
| src/Encrypt.java:35-36 | checks the keys "password" and "file", while `parseParams` stores "-password" and "-file" (src/Encrypt.java:89) | `java Encrypt -password p -file f` prints the guide | the names as stored, dash included | not executed | EncryptProgram.GuideForWellFormedCall | EncryptProgram.CorrectedAcceptsWellFormedCall |
