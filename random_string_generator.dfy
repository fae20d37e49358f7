/**
  DevToys' random string generator (the password generator tool's engine).
  `Generate` checks its arguments, resolves the alphabet (a custom set, or the
  concatenation of up to four predefined character classes) and fills
  `amountToGenerate` strings of `length` characters, each picked with an index
  from `GetRandomNumber`, which rejection-samples 31-bit draws of the random
  source so that every index is equally likely.

  Each method is proved equal to a function of its inputs and of the bytes the
  random source will hand out (`CombinedCharacters`, `RandomNumber`,
  `Generated`); what the generator promises is proved about those functions.
*/
module RandomStringGenerator {
  import opened DotNet
  import opened Entropy

  const LowerCaseLetters: string := "abcdefghijklmnopqrstuvwxyz"
  const UpperCaseLetters: string := "ABCDEFGHIJKLMNOPQRSTUVWXYZ"
  const Numbers: string := "1234567890"
  const SpecialCharacters: string := @"~!@#$%^&*_-+=`|\(){}[]:;""'<>,.?/"

  /** Every character of `s` is a visible ASCII character, `!` to `~`. */
  predicate VisibleAscii(s: string)
  {
    forall i :: 0 <= i < |s| ==> '!' <= s[i] <= '~'
  }

  /**
    The four classes hold 26, 26, 10 and 32 characters, all of them visible
    ASCII characters (so none is white space); the verbatim special class
    holds the backslash and, through its doubled quote, one double quote.
  */
  lemma CharacterClassesShape()
    ensures |LowerCaseLetters| == 26 && |UpperCaseLetters| == 26 && |Numbers| == 10 && |SpecialCharacters| == 32
    ensures VisibleAscii(LowerCaseLetters) && VisibleAscii(UpperCaseLetters)
    ensures VisibleAscii(Numbers) && VisibleAscii(SpecialCharacters)
    ensures SpecialCharacters[15] == '\\' && SpecialCharacters[24] == '"'
  {
    LowerCaseVisible();
    UpperCaseVisible();
    NumbersVisible();
    SpecialCharactersVisible();
  }

  lemma LowerCaseVisible() ensures VisibleAscii(LowerCaseLetters) {}
  lemma UpperCaseVisible() ensures VisibleAscii(UpperCaseLetters) {}
  lemma NumbersVisible() ensures VisibleAscii(Numbers) {}
  lemma SpecialCharactersVisible() ensures VisibleAscii(SpecialCharacters) {}

  /**
    Why a call produced no strings: the two InvalidOperationExceptions that
    `Generate` throws ("Length must be greater than 0", "Invalid character set
    configuration"), the ArgumentOutOfRangeException that the result list's
    constructor throws for a negative capacity (`amountToGenerate < 0`), or the
    supplied random bytes running out.
  */
  datatype Error = InvalidLength | InvalidCharacterSet | NegativeCapacity | EntropyExhausted

  datatype Result<T> = Success(value: T) | Failure(error: Error)

  /** An outcome together with the read position of the random source after it. */
  datatype Drawn<T> = Drawn(result: Result<T>, next: nat)

  /*********************************************************************
   * Resolving the alphabet
   *********************************************************************/

  /** The four predefined classes, in the order they are appended. */
  function CharacterClasses(): seq<string>
  {
    [LowerCaseLetters, UpperCaseLetters, Numbers, SpecialCharacters]
  }

  function Concat(parts: seq<string>): string
  {
    if parts == [] then "" else parts[0] + Concat(parts[1..])
  }

  /** The classes whose flag is set, in their original order. */
  function Chosen(classes: seq<string>, flags: seq<bool>): seq<string>
    requires |classes| == |flags|
  {
    if classes == [] then []
    else (if flags[0] then [classes[0]] else []) + Chosen(classes[1..], flags[1..])
  }

  /** The alphabet the four flags describe: the chosen classes, concatenated. */
  function CombinedCharacters(includeLowerCase: bool, includeUpperCase: bool,
                              includeNumbers: bool, includeSpecialCharacters: bool): (s: string)
    ensures |s| == (if includeLowerCase then 26 else 0) + (if includeUpperCase then 26 else 0)
                 + (if includeNumbers then 10 else 0) + (if includeSpecialCharacters then 32 else 0)
  {
    ChosenFourInOrder(LowerCaseLetters, UpperCaseLetters, Numbers, SpecialCharacters,
                      includeLowerCase, includeUpperCase, includeNumbers, includeSpecialCharacters);
    Concat(Chosen(CharacterClasses(), [includeLowerCase, includeUpperCase, includeNumbers, includeSpecialCharacters]))
  }

  /** The builder appends the classes one `if` at a time, as a StringBuilder would. */
  method BuildCharacterSet(includeLowerCase: bool, includeUpperCase: bool,
                           includeNumbers: bool, includeSpecialCharacters: bool)
    returns (combinedCharacters: string)
    ensures combinedCharacters == CombinedCharacters(includeLowerCase, includeUpperCase, includeNumbers, includeSpecialCharacters)
    ensures |combinedCharacters| == (if includeLowerCase then 26 else 0) + (if includeUpperCase then 26 else 0)
                                  + (if includeNumbers then 10 else 0) + (if includeSpecialCharacters then 32 else 0)
  {
    ghost var lower, upper := (if includeLowerCase then LowerCaseLetters else ""), (if includeUpperCase then UpperCaseLetters else "");
    ghost var numbers, special := (if includeNumbers then Numbers else ""), (if includeSpecialCharacters then SpecialCharacters else "");
    combinedCharacters := "";
    if includeLowerCase {
      combinedCharacters := combinedCharacters + LowerCaseLetters;
    }
    assert combinedCharacters == lower;
    if includeUpperCase {
      combinedCharacters := combinedCharacters + UpperCaseLetters;
    }
    assert combinedCharacters == lower + upper;
    if includeNumbers {
      combinedCharacters := combinedCharacters + Numbers;
    }
    assert combinedCharacters == lower + upper + numbers;
    if includeSpecialCharacters {
      combinedCharacters := combinedCharacters + SpecialCharacters;
    }
    assert combinedCharacters == lower + upper + numbers + special;
    CombinedCharactersInOrder(includeLowerCase, includeUpperCase, includeNumbers, includeSpecialCharacters);
  }

  /** The combined alphabet is lower case, upper case, numbers, special characters, each only when asked for. */
  lemma CombinedCharactersInOrder(includeLowerCase: bool, includeUpperCase: bool,
                                  includeNumbers: bool, includeSpecialCharacters: bool)
    ensures CombinedCharacters(includeLowerCase, includeUpperCase, includeNumbers, includeSpecialCharacters)
         == (if includeLowerCase then LowerCaseLetters else "")
          + (if includeUpperCase then UpperCaseLetters else "")
          + (if includeNumbers then Numbers else "")
          + (if includeSpecialCharacters then SpecialCharacters else "")
  {
    ChosenFourInOrder(LowerCaseLetters, UpperCaseLetters, Numbers, SpecialCharacters,
                      includeLowerCase, includeUpperCase, includeNumbers, includeSpecialCharacters);
  }

  lemma ChosenFourInOrder(a: string, b: string, c: string, d: string, fa: bool, fb: bool, fc: bool, fd: bool)
    ensures Concat(Chosen([a, b, c, d], [fa, fb, fc, fd]))
         == (if fa then a else "") + (if fb then b else "") + (if fc then c else "") + (if fd then d else "")
  {
    var classes, flags := [a, b, c, d], [fa, fb, fc, fd];
    ChosenStep(classes, flags);
    assert classes[1..] == [b, c, d] && flags[1..] == [fb, fc, fd];
    ChosenStep([b, c, d], [fb, fc, fd]);
    assert [b, c, d][1..] == [c, d] && [fb, fc, fd][1..] == [fc, fd];
    ChosenStep([c, d], [fc, fd]);
    assert [c, d][1..] == [d] && [fc, fd][1..] == [fd];
    ChosenStep([d], [fd]);
    assert [d][1..] == [] && [fd][1..] == [];
    var pa, pb, pc, pd := (if fa then a else ""), (if fb then b else ""), (if fc then c else ""), (if fd then d else "");
    assert Concat(Chosen([], [])) == "";
    assert pd + "" == pd;
    AppendAssociative(pa, pb, pc + pd);
    AppendAssociative(pa + pb, pc, pd);
  }

  lemma AppendAssociative(x: string, y: string, z: string)
    ensures x + (y + z) == (x + y) + z
  {
  }

  lemma ChosenStep(classes: seq<string>, flags: seq<bool>)
    requires |classes| == |flags| > 0
    ensures Concat(Chosen(classes, flags))
         == (if flags[0] then classes[0] else "") + Concat(Chosen(classes[1..], flags[1..]))
  {
    var head: seq<string> := if flags[0] then [classes[0]] else [];
    ConcatAppend(head, Chosen(classes[1..], flags[1..]));
    if flags[0] {
      assert head[1..] == [];
    }
  }

  lemma {:induction false} ConcatAppend(front: seq<string>, back: seq<string>)
    ensures Concat(front + back) == Concat(front) + Concat(back)
  {
    if front == [] {
      assert front + back == back;
    } else {
      assert (front + back)[0] == front[0];
      assert (front + back)[1..] == front[1..] + back;
      ConcatAppend(front[1..], back);
    }
  }

  /** A character is in the combined alphabet exactly when its class is in it. */
  lemma CombinedCharactersMembers(includeLowerCase: bool, includeUpperCase: bool,
                                  includeNumbers: bool, includeSpecialCharacters: bool, c: char)
    ensures c in CombinedCharacters(includeLowerCase, includeUpperCase, includeNumbers, includeSpecialCharacters)
        <==> || (includeLowerCase && c in LowerCaseLetters)
             || (includeUpperCase && c in UpperCaseLetters)
             || (includeNumbers && c in Numbers)
             || (includeSpecialCharacters && c in SpecialCharacters)
  {
    CombinedCharactersInOrder(includeLowerCase, includeUpperCase, includeNumbers, includeSpecialCharacters);
  }

  /**
    With no flag set the combined alphabet is empty, and otherwise it is not
    blank: it is null-or-white-space exactly when every flag is false.
  */
  lemma CombinedCharactersBlank(includeLowerCase: bool, includeUpperCase: bool,
                                includeNumbers: bool, includeSpecialCharacters: bool)
    ensures var s := CombinedCharacters(includeLowerCase, includeUpperCase, includeNumbers, includeSpecialCharacters);
      && (s == "" <==> !includeLowerCase && !includeUpperCase && !includeNumbers && !includeSpecialCharacters)
      && (IsNullOrWhiteSpace(s) <==> s == "")
      && |s| <= 94
  {
    var s := CombinedCharacters(includeLowerCase, includeUpperCase, includeNumbers, includeSpecialCharacters);
    CombinedCharactersInOrder(includeLowerCase, includeUpperCase, includeNumbers, includeSpecialCharacters);
    if s != "" {
      // The first character is the first of the first class asked for: 'a', 'A', '1' or '~'.
      assert s[0] == if includeLowerCase then LowerCaseLetters[0] else if includeUpperCase then UpperCaseLetters[0]
                     else if includeNumbers then Numbers[0] else SpecialCharacters[0];
      assert !IsWhiteSpace(s[0]);
    }
  }

  /**
    The alphabet `Generate` draws from: a custom set that is not
    null-or-white-space, verbatim; otherwise the combined classes.
  */
  function ResolveCharacterSet(customCharacterSet: string, includeLowerCase: bool, includeUpperCase: bool,
                               includeNumbers: bool, includeSpecialCharacters: bool): (s: string)
    ensures !IsNullOrWhiteSpace(customCharacterSet) ==> s == customCharacterSet
    ensures IsNullOrWhiteSpace(s) <==>
      IsNullOrWhiteSpace(customCharacterSet)
      && !includeLowerCase && !includeUpperCase && !includeNumbers && !includeSpecialCharacters
    ensures IsNullOrWhiteSpace(s) ==> s == ""
  {
    CombinedCharactersBlank(includeLowerCase, includeUpperCase, includeNumbers, includeSpecialCharacters);
    if !IsNullOrWhiteSpace(customCharacterSet) then customCharacterSet
    else CombinedCharacters(includeLowerCase, includeUpperCase, includeNumbers, includeSpecialCharacters)
  }

  /*********************************************************************
   * Unbiased index sampling
   *********************************************************************/

  /** One draw: the four bytes read as a little-endian number, with the sign bit (bit 31) cleared. */
  function RandomDraw(data: seq<byte>): (r: int32)
    requires |data| == 4
    ensures 0 <= r <= IntMaxValue
  {
    FourBytesBound(data);
    (LittleEndian(data) % 0x8000_0000) as int32
  }

  /** The draw is what the generator computes: `BitConverter.ToInt32(data, 0) & int.MaxValue`. */
  lemma RandomDrawIsMaskedInt(data: seq<byte>)
    requires |data| == 4
    ensures RandomDraw(data) == BitAnd(ToInt32(data, 0), IntMaxValue)
  {
    ClearSignBit(data);
  }

  /**
    `exclusiveMax * (int.MaxValue / exclusiveMax)`, computed in `int`: it
    cannot overflow, is a multiple of `exclusiveMax` no smaller than it, and
    leaves at most `exclusiveMax` draws, those in [limit, int.MaxValue],
    rejected.
  */
  function RejectionLimit(exclusiveMax: int32): (limit: int32)
    requires 1 <= exclusiveMax
    ensures exclusiveMax <= limit <= IntMaxValue
    ensures limit as int % exclusiveMax as int == 0
    ensures 1 <= IntMaxValue as int - limit as int + 1 <= exclusiveMax as int
  {
    var quotient := IntMaxValue / exclusiveMax;
    QuotientBounds(IntMaxValue as int, exclusiveMax as int);
    exclusiveMax * quotient
  }

  /**
    For an alphabet of 2^k characters the limit rejects exactly 2^k draws,
    the top ones, although `[0, 2^31)` would split into equal classes
    without rejecting any.
  */
  lemma PowerOfTwoRejectsTopDraws(n: int32, k: nat)
    requires k <= 30 && n as int == Pow2(k)
    ensures IntMaxValue as int - RejectionLimit(n) as int + 1 == n as int
  {
    Pow2ThirtyOne();
    Pow2Add(k, 31 - k);
    TopDrawsOfDivisor(n as int, Pow2(31 - k));
    assert RejectionLimit(n) as int == n as int * (0x7FFF_FFFF / n as int);
  }

  /** When `n` divides 2^31, `int.MaxValue / n` is `2^31 / n - 1`, so `n * (int.MaxValue / n)` is `2^31 - n`. */
  lemma TopDrawsOfDivisor(n: int, q: int)
    requires 1 <= n && 1 <= q && n * q == 0x8000_0000
    ensures 0x7FFF_FFFF - n * (0x7FFF_FFFF / n) + 1 == n
  {
    assert n * (q - 1) == n * q - n;
    DivModUnique(0x7FFF_FFFF, n, q - 1, n - 1);
  }

  /** The `j`th draw (of sizeof(int) = 4 bytes each) made from the bytes of `supply` that start at `position`. */
  function NthDraw(supply: seq<byte>, position: nat, j: nat): int32
    requires position + 4 * j + 4 <= |supply|
  {
    RandomDraw(supply[position + 4 * j .. position + 4 * j + 4])
  }

  /** The first `count` draws from `position` on are all at or above the rejection limit. */
  predicate AllRejected(supply: seq<byte>, position: nat, count: nat, exclusiveMax: int32)
    requires 1 <= exclusiveMax && position + 4 * count <= |supply|
  {
    forall j :: 0 <= j < count ==> NthDraw(supply, position, j) >= RejectionLimit(exclusiveMax)
  }

  /**
    What `GetRandomNumber(exclusiveMax)` returns when the source reads `supply`
    from `position`: draws are taken four bytes at a time and rejected while at
    or above the rejection limit; the first accepted one is reduced modulo
    `exclusiveMax`. If the bytes run out first, there is no result.
  */
  function RandomNumber(supply: seq<byte>, position: nat, exclusiveMax: int32): (d: Drawn<int32>)
    requires 1 <= exclusiveMax && position <= |supply|
    ensures position <= d.next <= |supply|
    ensures d.result.Failure? ==> d.result.error == EntropyExhausted && |supply| - d.next < 4
    ensures d.result.Success? ==> 0 <= d.result.value < exclusiveMax && position + 4 <= d.next
    decreases |supply| - position
  {
    if |supply| - position < 4 then
      Drawn(Failure(EntropyExhausted), position)
    else
      var randomNumber := RandomDraw(supply[position..position + 4]);
      if randomNumber >= RejectionLimit(exclusiveMax) then
        RandomNumber(supply, position + 4, exclusiveMax)
      else
        Drawn(Success(randomNumber % exclusiveMax), position + 4)
  }

  /** How many draws from `position` on are rejected before one is accepted or the bytes run out. */
  function RejectedDraws(supply: seq<byte>, position: nat, exclusiveMax: int32): nat
    requires 1 <= exclusiveMax && position <= |supply|
    decreases |supply| - position
  {
    if |supply| - position < 4 then 0
    else if RandomDraw(supply[position..position + 4]) >= RejectionLimit(exclusiveMax) then
      1 + RejectedDraws(supply, position + 4, exclusiveMax)
    else 0
  }

  /**
    `RandomNumber` answers with the first draw below the rejection limit: the
    `k` draws before it were all rejected, it reads exactly `k + 1` draws, and
    the index is that draw modulo `exclusiveMax`. When there is no answer,
    `k` whole draws were read and rejected and fewer than four bytes are left.
  */
  lemma {:induction false} RandomNumberTakesFirstAcceptedDraw(supply: seq<byte>, position: nat, exclusiveMax: int32)
    requires 1 <= exclusiveMax && position <= |supply|
    ensures var d, k := RandomNumber(supply, position, exclusiveMax), RejectedDraws(supply, position, exclusiveMax);
      && position + 4 * k <= |supply|
      && AllRejected(supply, position, k, exclusiveMax)
      && (d.result.Failure? ==> d.next == position + 4 * k)
      && (d.result.Success? ==>
            && d.next == position + 4 * (k + 1)
            && NthDraw(supply, position, k) < RejectionLimit(exclusiveMax)
            && d.result.value == NthDraw(supply, position, k) % exclusiveMax)
    decreases |supply| - position
  {
    if 4 <= |supply| - position {
      assert NthDraw(supply, position, 0) == RandomDraw(supply[position..position + 4]);
      if NthDraw(supply, position, 0) >= RejectionLimit(exclusiveMax) {
        var after := position + 4;
        RandomNumberTakesFirstAcceptedDraw(supply, after, exclusiveMax);
        var k := RejectedDraws(supply, after, exclusiveMax);
        RejectedAfterOne(supply, position, k, exclusiveMax);
        if RandomNumber(supply, after, exclusiveMax).result.Success? {
          NthDrawShift(supply, position, k + 1);
        }
      }
    }
  }

  /** Draw `j + 1` from `position` is draw `j` from four bytes later. */
  lemma NthDrawShift(supply: seq<byte>, position: nat, j: nat)
    requires 1 <= j && position + 4 * j + 4 <= |supply|
    ensures NthDraw(supply, position, j) == NthDraw(supply, position + 4, j - 1)
  {
    assert position + 4 * j == (position + 4) + 4 * (j - 1);
  }

  /** A rejected first draw followed by `k` rejected draws makes `k + 1` rejected draws. */
  lemma RejectedAfterOne(supply: seq<byte>, position: nat, k: nat, exclusiveMax: int32)
    requires 1 <= exclusiveMax && position + 4 * (k + 1) <= |supply|
    requires NthDraw(supply, position, 0) >= RejectionLimit(exclusiveMax)
    requires AllRejected(supply, position + 4, k, exclusiveMax)
    ensures AllRejected(supply, position, k + 1, exclusiveMax)
  {
    forall j | 1 <= j < k + 1
      ensures NthDraw(supply, position, j) >= RejectionLimit(exclusiveMax)
    {
      NthDrawShift(supply, position, j);
    }
  }

  /** GetRandomNumber: a do/while loop that refills `data` until a draw is accepted. */
  method GetRandomNumber(rng: EntropySource, exclusiveMax: int32) returns (r: Result<int32>)
    requires 1 <= exclusiveMax && rng.Valid()
    modifies rng
    ensures rng.Valid()
    ensures Drawn(r, rng.position) == RandomNumber(rng.supply, old(rng.position), exclusiveMax)
  {
    var data := new byte[4];
    var randomNumber: int32 := 0;
    QuotientBounds(IntMaxValue as int, exclusiveMax as int);
    var limit := exclusiveMax * (IntMaxValue / exclusiveMax);
    assert limit == RejectionLimit(exclusiveMax);
    while true
      invariant rng.Valid()
      invariant RandomNumber(rng.supply, rng.position, exclusiveMax) == RandomNumber(rng.supply, old(rng.position), exclusiveMax)
      decreases |rng.supply| - rng.position
    {
      var filled := rng.GetBytes(data);
      if !filled {
        return Failure(EntropyExhausted);
      }
      randomNumber := BitAnd(ToInt32(data[..], 0), IntMaxValue);
      RandomDrawIsMaskedInt(data[..]);
      if randomNumber < limit {
        break;
      }
    }
    return Success(randomNumber % exclusiveMax);
  }

  lemma QuotientBounds(m: int, n: int)
    requires 1 <= n <= m
    ensures var q := m / n;
      && 1 <= q && n <= n * q <= m && m - n * q < n && (n * q) % n == 0
  {
    var q, r := m / n, m % n;
    assert m == n * q + r && 0 <= r < n;
    assert n * q == n * (q - 1) + n;
    DivModUnique(n * q, n, q, 0);
  }

  /** The draws below `limit` whose remainder modulo `n` is `index`. */
  function AcceptedWithRemainder(limit: int, n: int, index: int): set<int>
    requires 1 <= n
  {
    set r | 0 <= r < limit && r % n == index
  }

  /** The residues modulo `n` of `[0, n * m)`: each occurs exactly `m` times. */
  lemma {:induction false} ResidueCount(n: int, m: nat, index: int)
    requires 1 <= n && 0 <= index < n
    ensures |AcceptedWithRemainder(n * m, n, index)| == m
  {
    if m > 0 {
      var smaller := AcceptedWithRemainder(n * (m - 1), n, index);
      var all := AcceptedWithRemainder(n * m, n, index);
      var last := n * (m - 1) + index;
      assert n * m == n * (m - 1) + n;
      DivModUnique(last, n, m - 1, index);
      forall r | r in all
        ensures r in smaller || r == last
      {
        if r >= n * (m - 1) {
          DivModUnique(r, n, m - 1, r - n * (m - 1));
        }
      }
      assert all == smaller + {last};
      assert last !in smaller;
      ResidueCount(n, m - 1, index);
    }
  }

  /**
    No modulo bias: among the accepted draws `[0, RejectionLimit(n))`, every
    index in `[0, n)` is the remainder of exactly `int.MaxValue / n` of them.
  */
  lemma EveryIndexEquallyLikely(exclusiveMax: int32, index: int)
    requires 1 <= exclusiveMax && 0 <= index < exclusiveMax as int
    ensures |AcceptedWithRemainder(RejectionLimit(exclusiveMax) as int, exclusiveMax as int, index)|
         == (IntMaxValue / exclusiveMax) as int
  {
    ResidueCount(exclusiveMax as int, (IntMaxValue / exclusiveMax) as nat, index);
  }

  /*********************************************************************
   * Filling the output
   *********************************************************************/

  function Prepend<T>(x: T, d: Drawn<seq<T>>): Drawn<seq<T>>
  {
    match d.result
    case Success(v) => Drawn(Success([x] + v), d.next)
    case Failure(e) => Drawn(Failure(e), d.next)
  }

  function Extend<T>(prefix: seq<T>, d: Drawn<seq<T>>): Drawn<seq<T>>
  {
    match d.result
    case Success(v) => Drawn(Success(prefix + v), d.next)
    case Failure(e) => Drawn(Failure(e), d.next)
  }

  /**
    One string of `length` characters, each `characterSet[k]` for the index
    `k` the next accepted draw gives, in draw order.
  */
  function RandomString(supply: seq<byte>, position: nat, characterSet: string, length: nat): (d: Drawn<string>)
    requires 1 <= |characterSet| <= IntMaxValue as int && position <= |supply|
    ensures position <= d.next <= |supply|
    ensures d.result.Failure? ==> d.result.error == EntropyExhausted && |supply| - d.next < 4
    ensures d.result.Success? ==>
      && |d.result.value| == length
      && forall i :: 0 <= i < length ==> d.result.value[i] in characterSet
    decreases length
  {
    if length == 0 then
      Drawn(Success([]), position)
    else
      var d := RandomNumber(supply, position, |characterSet| as int32);
      match d.result
      case Failure(e) => Drawn(Failure(e), d.next)
      case Success(k) => Prepend(characterSet[k], RandomString(supply, d.next, characterSet, length - 1))
  }

  /** `amountToGenerate` strings of `length` characters, in generation order. */
  function RandomStrings(supply: seq<byte>, position: nat, characterSet: string, length: nat, amountToGenerate: nat)
    : (d: Drawn<seq<string>>)
    requires 1 <= |characterSet| <= IntMaxValue as int && position <= |supply|
    ensures position <= d.next <= |supply|
    ensures d.result.Failure? ==> d.result.error == EntropyExhausted && |supply| - d.next < 4
    ensures d.result.Success? ==>
      && |d.result.value| == amountToGenerate
      && forall i :: 0 <= i < amountToGenerate ==>
           |d.result.value[i]| == length && forall c :: c in d.result.value[i] ==> c in characterSet
    decreases amountToGenerate
  {
    if amountToGenerate == 0 then
      Drawn(Success([]), position)
    else
      var d := RandomString(supply, position, characterSet, length);
      match d.result
      case Failure(e) => Drawn(Failure(e), d.next)
      case Success(s) => Prepend(s, RandomStrings(supply, d.next, characterSet, length, amountToGenerate - 1))
  }

  /**
    What `Generate` returns: an InvalidLength error for a non-positive length,
    then an InvalidCharacterSet error for a blank alphabet, then a
    NegativeCapacity error for a negative amount, all before any draw;
    otherwise the strings drawn from the resolved alphabet.
  */
  function Generated(supply: seq<byte>, position: nat, length: int32, amountToGenerate: int32,
                     includeLowerCase: bool, includeUpperCase: bool, includeNumbers: bool,
                     includeSpecialCharacters: bool, customCharacterSet: string): (d: Drawn<seq<string>>)
    requires position <= |supply|
    requires |customCharacterSet| <= IntMaxValue as int
    ensures position <= d.next <= |supply|
    ensures d.result == Failure(InvalidLength) <==> length < 1
    ensures d.result == Failure(InvalidCharacterSet) <==>
      && 1 <= length
      && IsNullOrWhiteSpace(customCharacterSet)
      && !includeLowerCase && !includeUpperCase && !includeNumbers && !includeSpecialCharacters
    ensures d.result == Failure(NegativeCapacity) <==>
      && 1 <= length
      && !IsNullOrWhiteSpace(ResolveCharacterSet(customCharacterSet, includeLowerCase, includeUpperCase,
                                                 includeNumbers, includeSpecialCharacters))
      && amountToGenerate < 0
    ensures d.result.Failure? && d.result.error != EntropyExhausted ==> d.next == position
    ensures d.result.Success? ==>
      var characterSet := ResolveCharacterSet(customCharacterSet, includeLowerCase, includeUpperCase,
                                              includeNumbers, includeSpecialCharacters);
      && |d.result.value| == amountToGenerate as int
      && forall i :: 0 <= i < |d.result.value| ==>
           |d.result.value[i]| == length as int && forall c :: c in d.result.value[i] ==> c in characterSet
  {
    CombinedCharactersBlank(includeLowerCase, includeUpperCase, includeNumbers, includeSpecialCharacters);
    if length < 1 then
      Drawn(Failure(InvalidLength), position)
    else
      var characterSet := ResolveCharacterSet(customCharacterSet, includeLowerCase, includeUpperCase,
                                              includeNumbers, includeSpecialCharacters);
      if IsNullOrWhiteSpace(characterSet) then
        Drawn(Failure(InvalidCharacterSet), position)
      else if amountToGenerate < 0 then
        Drawn(Failure(NegativeCapacity), position)
      else
        RandomStrings(supply, position, characterSet, length as nat, amountToGenerate as nat)
  }

  /**
    With the default arguments (no custom set, every flag set) the alphabet is
    all 94 characters of the four classes, in class order, and a call that
    is not cut short by the random bytes gives one string of 16 of them.
  */
  lemma DefaultAlphabet(supply: seq<byte>, position: nat)
    requires position <= |supply|
    ensures var s := ResolveCharacterSet("", true, true, true, true);
      && s == LowerCaseLetters + UpperCaseLetters + Numbers + SpecialCharacters
      && |s| == 94
    ensures var d := Generated(supply, position, 16, 1, true, true, true, true, "");
      d.result.Failure? ==> d.result.error == EntropyExhausted
    ensures var d := Generated(supply, position, 16, 1, true, true, true, true, "");
      d.result.Success? ==> |d.result.value| == 1 && |d.result.value[0]| == 16
  {
    CombinedCharactersInOrder(true, true, true, true);
  }

  /**
    A custom set that is not null-or-white-space decides the outcome alone:
    whatever the four flags say, the same strings come out, and every
    character of them is one of the custom set's (kept untrimmed, duplicates
    and all).
  */
  lemma CustomSetOverridesFlags(supply: seq<byte>, position: nat, length: int32, amountToGenerate: int32,
                                flags: seq<bool>, otherFlags: seq<bool>, customCharacterSet: string)
    requires position <= |supply| && |customCharacterSet| <= IntMaxValue as int
    requires |flags| == 4 && |otherFlags| == 4
    requires !IsNullOrWhiteSpace(customCharacterSet)
    ensures var d := Generated(supply, position, length, amountToGenerate, flags[0], flags[1], flags[2], flags[3], customCharacterSet);
      && d == Generated(supply, position, length, amountToGenerate,
                        otherFlags[0], otherFlags[1], otherFlags[2], otherFlags[3], customCharacterSet)
      && (1 <= length && 0 <= amountToGenerate ==> d == RandomStrings(supply, position, customCharacterSet, length as nat, amountToGenerate as nat))
      && (d.result.Success? ==> forall i, c :: 0 <= i < |d.result.value| && c in d.result.value[i] ==> c in customCharacterSet)
  {
  }

  /*********************************************************************
   * Generate
   *********************************************************************/

  /**
    Generate: validates the length, resolves and validates the alphabet, then
    fills the strings one character at a time in nested loops. The defaults
    are the source's: one string of 16 characters from all four classes.
  */
  method Generate(rng: EntropySource, length: int32 := 16, amountToGenerate: int32 := 1,
                  includeLowerCase: bool := true, includeUpperCase: bool := true, includeNumbers: bool := true,
                  includeSpecialCharacters: bool := true, customCharacterSet: string := "")
    returns (r: Result<seq<string>>)
    requires rng.Valid()
    requires |customCharacterSet| <= IntMaxValue as int
    modifies rng
    ensures rng.Valid()
    ensures Drawn(r, rng.position)
         == Generated(rng.supply, old(rng.position), length, amountToGenerate, includeLowerCase, includeUpperCase,
                      includeNumbers, includeSpecialCharacters, customCharacterSet)
  {
    if length < 1 {
      return Failure(InvalidLength);
    }

    var characterSet: string;
    if !IsNullOrWhiteSpace(customCharacterSet) {
      characterSet := customCharacterSet;
    } else {
      characterSet := BuildCharacterSet(includeLowerCase, includeUpperCase, includeNumbers, includeSpecialCharacters);
    }
    CombinedCharactersBlank(includeLowerCase, includeUpperCase, includeNumbers, includeSpecialCharacters);

    if IsNullOrWhiteSpace(characterSet) {
      return Failure(InvalidCharacterSet);
    }
    assert characterSet != "";

    if amountToGenerate < 0 {
      return Failure(NegativeCapacity);
    }
    r := FillStrings(rng, characterSet, length, amountToGenerate);
  }

  /** The outer loop of `Generate`: `amountToGenerate` strings, one after the other. */
  method FillStrings(rng: EntropySource, characterSet: string, length: int32, amountToGenerate: int32)
    returns (r: Result<seq<string>>)
    requires rng.Valid() && 1 <= |characterSet| <= IntMaxValue as int && 1 <= length && 0 <= amountToGenerate
    modifies rng
    ensures rng.Valid() && old(rng.position) <= rng.position
    ensures Drawn(r, rng.position)
         == RandomStrings(rng.supply, old(rng.position), characterSet, length as nat, amountToGenerate as nat)
  {
    ghost var target := RandomStrings(rng.supply, rng.position, characterSet, length as nat, amountToGenerate as nat);
    ghost var before := rng.position;
    var randomStrings: seq<string> := [];
    var i: int32 := 0;
    ghost var remaining: nat := amountToGenerate as nat;
    ExtendEmpty(target);
    while i < amountToGenerate
      invariant rng.Valid() && before <= rng.position
      invariant 0 <= i <= amountToGenerate && remaining == amountToGenerate as int - i as int
      invariant Extend(randomStrings, RandomStrings(rng.supply, rng.position, characterSet, length as nat, remaining)) == target
    {
      ghost var here := rng.position;
      var randomString := FillString(rng, characterSet, length);
      StringAfterDraw(rng.supply, here, characterSet, length as nat, remaining, randomStrings, randomString, rng.position);
      if randomString.Failure? {
        return Failure(randomString.error);
      }
      randomStrings := randomStrings + [randomString.value];
      i := i + 1;
      remaining := remaining - 1;
    }
    assert randomStrings + [] == randomStrings;
    return Success(randomStrings);
  }

  /** One turn of the outer loop, as `CharacterAfterDraw` is one turn of the inner loop. */
  lemma StringAfterDraw(supply: seq<byte>, position: nat, characterSet: string, length: nat, amountToGenerate: nat,
                        prefix: seq<string>, drawn: Result<string>, next: nat)
    requires 1 <= |characterSet| <= IntMaxValue as int && position <= |supply| && 1 <= amountToGenerate
    requires Drawn(drawn, next) == RandomString(supply, position, characterSet, length)
    ensures drawn.Failure? ==>
      Extend(prefix, RandomStrings(supply, position, characterSet, length, amountToGenerate)) == Drawn(Failure(drawn.error), next)
    ensures drawn.Success? ==>
      Extend(prefix, RandomStrings(supply, position, characterSet, length, amountToGenerate))
      == Extend(prefix + [drawn.value], RandomStrings(supply, next, characterSet, length, amountToGenerate - 1))
  {
    if drawn.Success? {
      ExtendPrepend(prefix, drawn.value, RandomStrings(supply, next, characterSet, length, amountToGenerate - 1));
    }
  }

  /** The inner loop of `Generate`: one string, a character per call of `GetRandomNumber`. */
  method FillString(rng: EntropySource, characterSet: string, length: int32) returns (r: Result<string>)
    requires rng.Valid() && 1 <= |characterSet| <= IntMaxValue as int && 1 <= length
    modifies rng
    ensures rng.Valid() && old(rng.position) <= rng.position
    ensures Drawn(r, rng.position) == RandomString(rng.supply, old(rng.position), characterSet, length as nat)
  {
    ghost var target := RandomString(rng.supply, rng.position, characterSet, length as nat);
    ghost var before := rng.position;
    var randomString: string := "";
    var j: int32 := 0;
    ghost var remaining: nat := length as nat;
    ExtendEmpty(target);
    while j < length
      invariant rng.Valid() && before <= rng.position
      invariant 0 <= j <= length && remaining == length as int - j as int
      invariant Extend(randomString, RandomString(rng.supply, rng.position, characterSet, remaining)) == target
    {
      ghost var here := rng.position;
      var randomNumber := GetRandomNumber(rng, |characterSet| as int32);
      CharacterAfterDraw(rng.supply, here, characterSet, remaining, randomString, randomNumber, rng.position);
      if randomNumber.Failure? {
        return Failure(randomNumber.error);
      }
      randomString := randomString + [characterSet[randomNumber.value]];
      j := j + 1;
      remaining := remaining - 1;
    }
    assert randomString + [] == randomString;
    return Success(randomString);
  }

  /**
    One turn of the inner loop: after the draw that `RandomNumber` describes,
    the string built so far either ends in failure or grows by the character
    the draw picks, and the rest is drawn from where the draw left off.
  */
  lemma CharacterAfterDraw(supply: seq<byte>, position: nat, characterSet: string, length: nat,
                           prefix: string, drawn: Result<int32>, next: nat)
    requires 1 <= |characterSet| <= IntMaxValue as int && position <= |supply| && 1 <= length
    requires Drawn(drawn, next) == RandomNumber(supply, position, |characterSet| as int32)
    ensures drawn.Failure? ==>
      Extend(prefix, RandomString(supply, position, characterSet, length)) == Drawn(Failure(drawn.error), next)
    ensures drawn.Success? ==>
      && 0 <= drawn.value as int < |characterSet|
      && Extend(prefix, RandomString(supply, position, characterSet, length))
         == Extend(prefix + [characterSet[drawn.value]], RandomString(supply, next, characterSet, length - 1))
  {
    if drawn.Success? {
      ExtendPrepend(prefix, characterSet[drawn.value], RandomString(supply, next, characterSet, length - 1));
    }
  }

  lemma ExtendEmpty<T>(d: Drawn<seq<T>>)
    ensures Extend([], d) == d
  {
    if d.result.Success? {
      assert [] + d.result.value == d.result.value;
    }
  }

  lemma ExtendPrepend<T>(prefix: seq<T>, x: T, d: Drawn<seq<T>>)
    ensures Extend(prefix + [x], d) == Extend(prefix, Prepend(x, d))
  {
    if d.result.Success? {
      assert prefix + [x] + d.result.value == prefix + ([x] + d.result.value);
    }
  }
}
