# DevToys random string generator, in Dafny

This project models `RandomStringGenerator`, the engine behind DevToys' password generator tool.
`Generate(length, amountToGenerate, includeLowerCase, includeUpperCase, includeNumbers,
includeSpecialCharacters, customCharacterSet)` works in four steps:
1. It rejects a length below 1.
2. It resolves the alphabet. A custom set that is not null-or-white-space is taken as given. Otherwise
   `BuildCharacterSet` appends the chosen predefined classes: lower case, then upper case, then
   numbers, then special characters.
3. It rejects a blank alphabet.
4. It builds `amountToGenerate` strings of `length` characters. Each character is `characterSet[k]`
   for an index `k` from `GetRandomNumber(characterSet.Length)`.

`GetRandomNumber(n)` works like this:
- It reads four random bytes as an `int` and clears the sign bit.
- It rejects the draw while it is at or above `n * (int.MaxValue / n)`.
- It answers with the first accepted draw modulo `n`.

Files:
- `dotnet.dfy` (module `DotNet`) holds the .NET pieces the generator uses:
  - the 32-bit `int`, and `byte`;
  - `int.MaxValue`;
  - `&` on `int`, as a bit-by-bit AND of the two's-complement patterns;
  - `BitConverter.ToInt32` on a little-endian machine;
  - `char.IsWhiteSpace` and `string.IsNullOrWhiteSpace`.
- `entropy.dfy` (module `Entropy`) holds the class `EntropySource`, which stands for the shared
  `RNGCryptoServiceProvider`.
  - It holds a fixed supply of bytes and a read position.
  - `GetBytes` hands out the next bytes, in order.
  - A request the supply cannot fill is reported, and then nothing changes.
- `random_string_generator.dfy` (module `RandomStringGenerator`) holds the generator.

Each loop of the source is a method with loop invariants: `GetRandomNumber`, and the two loops of
`Generate`, split into `FillString` (inner) and `FillStrings` (outer). Each method is proved equal to
a function of its inputs and of the bytes the source will hand out:

| method | function |
|---|---|
| `BuildCharacterSet` | `CombinedCharacters` |
| `GetRandomNumber` | `RandomNumber` |
| `FillString` | `RandomString` |
| `FillStrings` | `RandomStrings` |
| `Generate` | `Generated` |

What the generator promises is proved about those functions:
- the validation errors and their order;
- the custom set overriding the flags;
- the order of the classes;
- the range of every index;
- the rejection limit;
- the absence of modulo bias;
- the shape of the output.

Three details of the code fix the behaviour, and the model keeps them:
- The custom set is used verbatim. It is not trimmed, and duplicates are kept. It only has to contain
  one character that is not white space.
- The digits class is `"1234567890"`, in that order.
- The rejection limit is `n * floor(int.MaxValue / n)`, that is `n * floor(M / n)` with
  M = 2^31 - 1, not `n * floor((M + 1) / n)`. When `n` is a power of two, the code therefore
  rejects the top `n` draws (`PowerOfTwoRejectsTopDraws`) even though they would cause no bias. What stays true, and is proved,
  is that every index keeps exactly `int.MaxValue / n` accepted draws.

## Model

| member | source | states |
|---|---|---|
| `RandomStringGenerator.CharacterClassesShape` | src/dev/impl/DevToys/Helpers/RandomString/RandomStringGenerator.cs:10-13 | The four classes have 26, 26, 10 and 32 characters, all visible ASCII. The verbatim special class holds the backslash and a single double quote. |
| `RandomStringGenerator.CombinedCharacters` | src/dev/impl/DevToys/Helpers/RandomString/RandomStringGenerator.cs:55-79 | The chosen classes, concatenated. Its length is 26, 26, 10 and 32 summed over the classes whose flag is set. |
| `RandomStringGenerator.BuildCharacterSet` | src/dev/impl/DevToys/Helpers/RandomString/RandomStringGenerator.cs:55-79 | The string built by the four conditional appends is the combined alphabet of the chosen classes. Its length is 26, 26, 10 and 32 summed over the classes whose flag is set. |
| `RandomStringGenerator.CombinedCharactersInOrder` | src/dev/impl/DevToys/Helpers/RandomString/RandomStringGenerator.cs:55-79 | The combined alphabet is lower case, then upper case, then numbers, then special characters. Each class is present exactly when its flag is set. |
| `RandomStringGenerator.CombinedCharactersMembers` | src/dev/impl/DevToys/Helpers/RandomString/RandomStringGenerator.cs:55-79 | A character is in the combined alphabet if and only if it belongs to a class whose flag is set. |
| `RandomStringGenerator.CombinedCharactersBlank` | src/dev/impl/DevToys/Helpers/RandomString/RandomStringGenerator.cs:31-38 | The combined alphabet is empty exactly when no flag is set. It is null-or-white-space only when it is empty. At most 94 characters. |
| `RandomStringGenerator.ResolveCharacterSet` | src/dev/impl/DevToys/Helpers/RandomString/RandomStringGenerator.cs:31-33 | A custom set that is not null-or-white-space is the alphabet as given. The resolved alphabet is blank exactly when the custom set is blank and no flag is set, and then it is empty. |
| `DotNet.IsWhiteSpace` | src/dev/impl/DevToys/Helpers/RandomString/RandomStringGenerator.cs:31 | `char.IsWhiteSpace`: the Unicode separators plus U+0009 to U+000D and U+0085. Space, tab, line feed and carriage return are white space. No visible ASCII character is. |
| `DotNet.IsNullOrWhiteSpace` | src/dev/impl/DevToys/Helpers/RandomString/RandomStringGenerator.cs:35 | True exactly when every character is white space, so true of the empty string. A non-empty string of visible ASCII characters is not blank. |
| `RandomStringGenerator.RandomDraw` | src/dev/impl/DevToys/Helpers/RandomString/RandomStringGenerator.cs:88 | A draw from four bytes lies in [0, int.MaxValue]. |
| `RandomStringGenerator.RandomDrawIsMaskedInt` | src/dev/impl/DevToys/Helpers/RandomString/RandomStringGenerator.cs:88 | The draw equals `BitConverter.ToInt32(data, 0) & int.MaxValue`. |
| `DotNet.ClearSignBit` | src/dev/impl/DevToys/Helpers/RandomString/RandomStringGenerator.cs:88 | Masking the `int` read from four bytes with `int.MaxValue` leaves their little-endian value modulo 2^31, which lies in [0, int.MaxValue]. |
| `DotNet.BitsAndLowOnes` | src/dev/impl/DevToys/Helpers/RandomString/RandomStringGenerator.cs:88 | AND with 2^k - 1 (the shape of `int.MaxValue`) is the remainder modulo 2^k. |
| `DotNet.BitAnd` | src/dev/impl/DevToys/Helpers/RandomString/RandomStringGenerator.cs:88 | C# `&` on `int`, bit by bit on the two's-complement patterns. With a non-negative mask the result lies between 0 and the mask, and is no larger than a non-negative left operand. |
| `DotNet.ToInt32` | src/dev/impl/DevToys/Helpers/RandomString/RandomStringGenerator.cs:88 | The two's-complement pattern of the result is the little-endian value of the four bytes at the start index. |
| `RandomStringGenerator.RejectionLimit` | src/dev/impl/DevToys/Helpers/RandomString/RandomStringGenerator.cs:90 | `exclusiveMax * (int.MaxValue / exclusiveMax)` does not overflow. It lies in [exclusiveMax, int.MaxValue], is a multiple of exclusiveMax, and leaves between 1 and exclusiveMax values, those in [limit, int.MaxValue], rejected. |
| `RandomStringGenerator.PowerOfTwoRejectsTopDraws` | src/dev/impl/DevToys/Helpers/RandomString/RandomStringGenerator.cs:90 | For an alphabet of n = 2^k characters (k <= 30), exactly 2^k draws are rejected, although none would need to be for an unbiased result. |
| `RandomStringGenerator.RandomNumber` | src/dev/impl/DevToys/Helpers/RandomString/RandomStringGenerator.cs:81-92 | An answer lies in [0, exclusiveMax) and reads at least one four-byte draw. No answer happens only when fewer than four bytes are left. |
| `RandomStringGenerator.RandomNumberTakesFirstAcceptedDraw` | src/dev/impl/DevToys/Helpers/RandomString/RandomStringGenerator.cs:85-91 | The answer comes from the first draw below the limit. All earlier draws were at or above it. Exactly those draws are read. The index is that draw modulo exclusiveMax. |
| `RandomStringGenerator.GetRandomNumber` | src/dev/impl/DevToys/Helpers/RandomString/RandomStringGenerator.cs:81-92 | The do/while loop returns what `RandomNumber` describes and leaves the source at the position it describes. |
| `RandomStringGenerator.ResidueCount` | src/dev/impl/DevToys/Helpers/RandomString/RandomStringGenerator.cs:90-91 | In [0, n * m) every residue modulo n occurs exactly m times. |
| `RandomStringGenerator.EveryIndexEquallyLikely` | src/dev/impl/DevToys/Helpers/RandomString/RandomStringGenerator.cs:90-91 | Every index in [0, exclusiveMax) is the remainder of exactly `int.MaxValue / exclusiveMax` accepted draws, so no index is favoured. |
| `RandomStringGenerator.RandomString` | src/dev/impl/DevToys/Helpers/RandomString/RandomStringGenerator.cs:43-49 | A string has exactly `length` characters, each taken from the alphabet. Failure only when the bytes run out. |
| `RandomStringGenerator.RandomStrings` | src/dev/impl/DevToys/Helpers/RandomString/RandomStringGenerator.cs:40-52 | There are exactly amountToGenerate strings, each with `length` characters, all from the alphabet. |
| `RandomStringGenerator.Generated` | src/dev/impl/DevToys/Helpers/RandomString/RandomStringGenerator.cs:17-53 | See the note below this table. |
| `RandomStringGenerator.DefaultAlphabet` | src/dev/impl/DevToys/Helpers/RandomString/RandomStringGenerator.cs:18-24 | With the default arguments the alphabet is all 94 characters of the four classes, in class order. The call can fail only when the bytes run out. On success it gives one string of 16 characters. |
| `RandomStringGenerator.CustomSetOverridesFlags` | src/dev/impl/DevToys/Helpers/RandomString/RandomStringGenerator.cs:31-33 | With a custom set that is not null-or-white-space, the flags change nothing. The strings are drawn from the custom set verbatim. |
| `RandomStringGenerator.Generate` | src/dev/impl/DevToys/Helpers/RandomString/RandomStringGenerator.cs:17-53 | Has the source's default arguments: length 16, one string, every flag set, no custom set. Returns what `Generated` describes, and leaves the source at the position it describes. |
| `RandomStringGenerator.FillStrings` | src/dev/impl/DevToys/Helpers/RandomString/RandomStringGenerator.cs:40-52 | The outer loop returns what `RandomStrings` describes. |
| `RandomStringGenerator.FillString` | src/dev/impl/DevToys/Helpers/RandomString/RandomStringGenerator.cs:43-49 | The inner loop returns what `RandomString` describes. |
| `RandomStringGenerator.CharacterAfterDraw` | src/dev/impl/DevToys/Helpers/RandomString/RandomStringGenerator.cs:46-47 | After one draw, either the outcome fails, or the string grows by `characterSet[k]` with k in range and the rest is drawn from the new position. |
| `RandomStringGenerator.StringAfterDraw` | src/dev/impl/DevToys/Helpers/RandomString/RandomStringGenerator.cs:43-49 | After one string is drawn, either the outcome fails, or the list grows by that string and the rest is drawn from the new position. |
| `Entropy.EntropySource.GetBytes` | src/dev/impl/DevToys/Helpers/RandomString/RandomStringGenerator.cs:87 | Fills the buffer with the next buffer-length bytes of the supply and advances the position. If too few bytes are left, reports so and changes nothing. |
| `Entropy.EntropySource.constructor` | src/dev/impl/DevToys/Helpers/RandomString/RandomStringGenerator.cs:15 | A new source starts at the first byte of its supply. |

`Generated` states the outcome of one call of `Generate`:
- InvalidLength if and only if length < 1.
- Otherwise InvalidCharacterSet if and only if the custom set is null-or-white-space and no flag is set.
- Otherwise NegativeCapacity if and only if amountToGenerate < 0.
- None of these errors reads a byte.
- Success gives exactly amountToGenerate strings. Each has `length` characters, all from the resolved
  alphabet.

## Left out

- The password generator's user interface is not part of this model. Its view model calls `Generate`. Its page (navigation and data-context wiring) and its tool provider (export metadata) never call it.
- The cryptographic random number generator is not modelled. Its bytes become a finite supply fixed in advance, so the model makes no probabilistic claims. It proves the counting fact that underlies uniformity instead (`EveryIndexEquallyLikely`).
- `GetRandomNumber`: the source retries as long as the provider produces rejected draws, and its provider never runs dry. The model instead stops with `EntropyExhausted` once fewer than four bytes are left. It does not claim that the retry loop terminates.
- Null strings are not modelled, since a Dafny string cannot be null. `string.IsNullOrWhiteSpace` treats null like the empty string, and so does the model.
- C# strings are sequences of UTF-16 code units. The model uses Dafny characters, so a surrogate pair in a custom set is one element here, where .NET sees two that can be drawn separately.
- `Generate`: `|customCharacterSet| <= int.MaxValue` is a precondition. It comes from the range of `string.Length` in .NET, not from a check in the source.
- `BitConverter.ToInt32` is modelled for a little-endian machine only, which is every platform DevToys targets.
- The thread safety of the shared provider is not modelled, nor concurrent calls.
- `GetRandomNumber` evaluates `exclusiveMax * (int.MaxValue / exclusiveMax)` once before the loop rather than on every turn. The expression has no side effects, so the outcome is the same.
