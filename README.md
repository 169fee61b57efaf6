# SmsRouterPi in Dafny

SmsRouterPi forwards the SMS messages and calls that a GSM modem receives as
e-mail. This project models the core of that program and proves properties of
the model:

- **SMS-DELIVER decoding** (`GsmHex`, `GsmAlphabet`, `GsmSeptets`, `GsmDateTime`,
  `GsmPdu`): the hex text turned into bytes and the PDU walker `ParseGsmPDU` of
  both revisions. The walker covers the sender's semi-octets, the time stamp,
  the validity period and the UCS-2 and 7-bit user data. The 7-bit unpacker is
  related to the TS 23.038 packing it is meant to invert.
- **The SIM800C session** (`Sim800c`, `Sim800cDevice`, `AtPatterns`):
  - `ExecuteATCommand` with its reply loop;
  - the unsolicited result codes and the key/value store;
  - the SMS and caller caches with `ProcessCache` and `ProcessSms`;
  - `Init` and `PerformLoop`.

  The session's fields live in a class whose methods are proved to compute
  functions over a `Session` value.
- **Line framing**: `CanReadLine` of `PlatformSerial` (`LineFraming`), and
  `OverlappedComm`'s `ReadLine`, `WriteLine` and AT command executors
  (`Overlapped`).
- **The older message-listing loop** (`MainLoop`): `ProcessCommLoop` and
  `ProcessMessages` of both revisions, over an `OverlappedComm` object.
- **Helpers**:
  - the case-insensitive key order, `ParseArguments` and `ValidateArguments`
    (`Shared`);
  - the mail upload callback (`Shared.UploadStatus`);
  - `MulDiv` and `RtlEnlargedUnsignedDivide` of the Linux build (`LinuxEnv`).

There are two revisions of the program. `Current` is the newer one, under
`Code/`. `Legacy` is the older one, under `Windows/SmsRouterPi/`. Where both
have an operation, one definition takes the revision as a parameter, and
lemmas say where the two agree and where they differ.

Behaviour of the code that the model keeps and the lemmas state:

- The extension table has the euro sign at code 0x65.
- The time zone is printed with `%+02i`, so zone 1 reads "+1:00". The zone hour
  is (d13 + d14) * 15 / 60, with the two digits added.
- 7-bit user data is accepted even when the septet decoder runs out of bytes.
- The current revision's PIN check in `ProcessCommLoop` never rejects.
- An '@' (code 0x00) at septet position 7, 15, … is lost when unpacking.

## Model

| member | source | states |
|---|---|---|
| Common.HexDigitValue | Code/GsmDecoder.h:100 | a hex digit's value lies in 0..15 and a decimal digit's is `ch - '0'` |
| Common.HexChar | Code/GsmDecoder.h:87-110 | the digit chosen for a nibble is a hex digit whose value is that nibble (the inverse of `HexDigitValue`) |
| Common.CStr | Code/OverlappedComm.h:168 | the C-string view is the longest NUL-free prefix: it is followed by a NUL or the end, and a NUL-free string is its own view |
| Common.CStrOfNulFree | Windows/SmsRouterPi/OverlappedComm.h:197 | a string without NUL is what `wcscmp`/`wcsstr` see of it |
| Common.NatToDecimal | Code/MainLoop.cpp:269 | `%i` of a natural number: digits only, one digit exactly for n < 10, no leading zero |
| Common.DecimalRoundTrip | Code/SIM800C.cpp:242 | reading back the printed decimal of n gives n (`stoi` inverts `%i`) |
| Common.FormatInt | Code/GsmDecoder.h:179 | a `%0Ni` conversion is at least N characters wide |
| Common.TruncDiv | Code/GsmDecoder.h:172 | C's `/`: the remainder a − b·q is smaller than b in magnitude and has the sign of a, so the quotient is truncated toward zero |
| AtPatterns.MatchATResult | Code/SIM800C.h:31 | a match is "+", alphanumerics, ":", a non-empty blank run, and then the suffix, which does not start with a blank |
| AtPatterns.ATResultRoundTrip | Code/SIM800C.cpp:108-111 | every line of that shape is matched, with exactly its code and its suffix |
| AtPatterns.ATResultNeedsPlus | Code/SIM800C.cpp:109-120 | a line that does not start with '+' ("OK", "ERROR") is never a result code |
| AtPatterns.MatchSmsIndex | Code/SIM800C.h:32 | the index is a non-empty digit run at the start, followed by a comma |
| AtPatterns.SmsIndexRoundTrip | Code/SIM800C.cpp:236-242 | the digits before the first comma are the index, whatever follows |
| AtPatterns.SmsIndexNeedsDigit | Code/SIM800C.cpp:236-240 | a value that does not start with a digit has no index |
| AtPatterns.MatchCallerId | Code/SIM800C.h:33 | the caller is a non-empty run without comma or quote, after an optional quote, followed by a comma or by a quote and a comma |
| AtPatterns.CallerIdRoundTrip | Code/SIM800C.cpp:198-201 | a caller between optional quotes and followed by a comma is recovered exactly |
| AtPatterns.CallerIdNeedsComma | Code/SIM800C.cpp:199 | a field ended by the line instead of a comma gives no caller |
| AtPatterns.MatchSubscriberNumber | Code/SIM800C.h:34 | the number holds no line terminator |
| AtPatterns.NumberFromRoundTrip | Code/SIM800C.h:34 | a quoted number after a comma and followed by `",` is read back |
| AtPatterns.SubscriberRoundTrip | Code/SIM800C.cpp:164-170 | without an alpha field, `,"<number>",…` gives the number |
| AtPatterns.SubscriberAfterAlpha | Code/SIM800C.cpp:164-170 | after a quoted alpha field, `"<alpha>","<number>",…` gives the number |
| AtPatterns.UnquotedAlphaFails | Code/SIM800C.h:34 | an unquoted non-empty alpha field gives no match |
| AtPatterns.SubscriberExample | Code/SIM800C.h:34 | a typical `+CNUM` value yields its number |
| GsmAlphabet.Table | Code/GsmDecoder.h:15-17 | each page has 128 entries |
| GsmAlphabet.DecodeGsmSeptet | Code/GsmDecoder.h:22-33 | the escape 0x1B emits nothing and selects the extension page; any other code appends its character from the current page and returns to the default page |
| GsmAlphabet.RenderLength | Code/GsmDecoder.h:22-33 | every code except the escape yields exactly one character |
| GsmAlphabet.RenderAppend | Code/GsmDecoder.h:65-82 | decoding distributes over concatenation, carrying the page across |
| GsmAlphabet.EscapeAppliesOnce | Code/GsmDecoder.h:24-32 | the escape applies to exactly the next code; after it, decoding is back on the default page |
| GsmAlphabet.EuroSign | Code/GsmDecoder.h:17 | escape + 0x65 is '€', and 0x65 alone is 'e' |
| GsmAlphabet.RenderPlain | Code/GsmDecoder.h:15 | without escapes, character i is the default-page entry of code i |
| GsmSeptets.Unpack | Code/GsmDecoder.h:49-82 | success means all n codes were produced; at most n codes in any case |
| GsmSeptets.DecodeGsmSeptetData | Code/GsmDecoder.h:37-85 | the method (skip loop, then decode loop, failing where a byte is needed at the end) computes `DecodeSeptets` |
| GsmSeptets.DecodedLength | Code/GsmDecoder.h:37-85 | on success, max(0, chars − skip) codes are emitted, and the text is that many characters minus the escapes |
| GsmSeptets.UnpackEnoughBytes | Code/GsmDecoder.h:58-79 | each step reads at most one byte, so n bytes always suffice for n codes |
| GsmSeptets.PackLength | Code/GsmDecoder.h:37-85 | packing n septets takes ceil(7n/8) octets |
| GsmSeptets.ByteRoundTrip | Code/GsmDecoder.h:77-79 | within one byte, `(c | b << k) & 0x7F` recovers the packed code and `b >> (7 − k)` is the next carry |
| GsmSeptets.UnpackPackFrom | Code/GsmDecoder.h:65-82 | unpacking the packing of codes from any group position gives the codes back, if no code at position 7 is 0x00 |
| GsmSeptets.UnpackPack | Code/GsmDecoder.h:37-85 | the round trip: decoding the packing of n codes as n characters succeeds with their text, if no code at positions 7, 15, … is '@' |
| GsmSeptets.AtInEighthPositionIsLost | Code/GsmDecoder.h:67-75 | eight '@' pack into seven zero bytes, and decoding them asks for an eighth byte: failure with seven '@' |
| GsmSeptets.ZeroBytesDecode | Code/GsmDecoder.h:65-82 | seven zero bytes read as eight characters fail after seven '@' |
| GsmSeptets.AtSignsText | Code/GsmDecoder.h:22-33 | code 0x00 is '@' on the default page |
| GsmHex.StrToUL16 | Code/GsmDecoder.h:100 | `strtoul(buff, _, 16)` on the two-character buffer: `None` when no digit follows blanks and sign, otherwise a value between −15 and 255 |
| GsmHex.HexValue | Code/GsmDecoder.h:100 | one hex digit is worth less than 16, two less than 256 |
| GsmHex.DecodeHexToBin | Code/GsmDecoder.h:87-110 | the current loop computes `DecodeHex`: `None` where `std::stoul` throws |
| GsmHex.DecodeHexToBinLegacy | Windows/SmsRouterPi/GsmDecoder.h:85-108 | the legacy loop computes `DecodeHexLegacy` (`wcstoul`, 0 for a pair without digits) |
| GsmHex.DecodeHexLegacyLength | Windows/SmsRouterPi/GsmDecoder.h:85-108 | the legacy decoder always yields ceil(n/2) bytes |
| GsmHex.RevisionsAgree | Windows/SmsRouterPi/GsmDecoder.h:98-106 | where the current decoder succeeds, the legacy one yields the same bytes |
| GsmHex.PairValue | Code/GsmDecoder.h:95-108 | a pair converts to 16·high + low when both are hex digits, and to the first digit's value when only that one is |
| GsmHex.NoDigitPair | Code/GsmDecoder.h:100 | a pair without a hex digit makes `stoul` throw and `wcstoul` give 0 |
| GsmHex.DigitBytes | Code/GsmDecoder.h:87-110 | the bytes hex text stands for: ceil(n/2) of them |
| GsmHex.DecodeHexDigits | Code/GsmDecoder.h:87-110 | text made of hex digits never throws, and decodes to its digit bytes |
| GsmHex.DigitBytesAt | Code/GsmDecoder.h:95-108 | byte i is the value of characters 2i and 2i+1; a lone last digit is a byte below 16 |
| GsmHex.EncodeHex | Code/GsmDecoder.h:87-110 | the encoding of n bytes is 2n hex digits |
| GsmHex.DecodeEncodeHex | Code/GsmDecoder.h:87-110 | both revisions' decoders invert hex encoding |
| GsmHex.DigitBytesOfEncode | Windows/SmsRouterPi/GsmDecoder.h:85-108 | the digit bytes of encoded bytes are those bytes |
| GsmDateTime.ParseTimestamp | Code/GsmDecoder.h:112-167 | accepted iff 14 leading digits and month 1..12, day 1..31, hour 0..23, minute and second 0..59; the fields are then the digit pairs |
| GsmDateTime.YearWindow | Code/GsmDecoder.h:123-132 | the year lies in currentYear−99..currentYear and keeps its two digits |
| GsmDateTime.CenturyWindow | Code/GsmDecoder.h:127-132 | a two-digit year is placed within the hundred years ending now |
| GsmDateTime.ZoneOfDigits | Code/GsmDecoder.h:169-177 | with digit zone characters the zone is (d13 + d14)·15/60, between 0 and 4, never negative |
| GsmDateTime.ZoneOfDigitPair | Code/GsmDecoder.h:172-177 | for two digits the masks change nothing and the sign bit is clear |
| GsmDateTime.ZoneSuffix | Code/GsmDecoder.h:179 | `%+02i` prints a one-digit zone as sign and digit, so zone 1 gives "+1:00" |
| GsmDateTime.FormatExample | Code/GsmDecoder.h:112-181 | "24032114070904" in 2025 gives "2024-03-21T14:07:09+1:00" |
| GsmDateTime.FormatExampleText | Code/GsmDecoder.h:179 | 2024-03-21 14:07:09 in zone 1 prints as "2024-03-21T14:07:09+1:00" |
| GsmDateTime.DateExample | Code/GsmDecoder.h:179 | example: 21 March 2024 prints as "2024-03-21" |
| GsmDateTime.TimeExample | Code/GsmDecoder.h:179 | example: 14:07:09 prints as "14:07:09" |
| GsmDateTime.TwoDigitText | Code/GsmDecoder.h:179 | the text of a `%02i` field is two decimal digits |
| GsmDateTime.DateLayout | Code/GsmDecoder.h:179 | every date in range prints as the year's decimal digits, '-', the month as two digits, '-', the day as two digits |
| GsmDateTime.TimeLayout | Code/GsmDecoder.h:179 | every time in range prints as hours, minutes and seconds, two digits each, joined by ':' (8 characters) |
| GsmDateTime.PaddedField | Code/GsmDecoder.h:179 | `%02i` prints 0..99 as exactly two digits, tens first |
| GsmDateTime.ParseDateTimeNumber | Windows/SmsRouterPi/GsmDecoder.h:112-133 | succeeds iff two digits are at it and it+1; it gives 10·d1 + d2 and leaves the iterator on the second digit |
| GsmDateTime.ParseGsmDateTimeLegacy | Windows/SmsRouterPi/GsmDecoder.h:135-248 | the legacy walk computes `LegacyDateTime`, and fails when `localtime_s` fails |
| GsmDateTime.LegacyField | Windows/SmsRouterPi/GsmDecoder.h:135-248 | a field step that fails makes the whole text unacceptable; one that succeeds gives the two-digit value in range |
| GsmDateTime.LegacyNumberFails | Windows/SmsRouterPi/GsmDecoder.h:112-133 | a field that is not two digits makes the text unacceptable |
| GsmDateTime.LegacyRangeFails | Windows/SmsRouterPi/GsmDecoder.h:135-248 | a field out of range makes the text unacceptable |
| GsmDateTime.LegacyAccepts | Windows/SmsRouterPi/GsmDecoder.h:135-248 | six two-digit fields in range and any two zone characters are accepted, with the same fields as the current revision |
| GsmDateTime.RevisionsAgree | Windows/SmsRouterPi/GsmDecoder.h:135-248 | wherever the current revision accepts, the legacy one accepts the same time stamp |
| GsmDateTime.LegacyAcceptsNonDigitZone | Windows/SmsRouterPi/GsmDecoder.h:135-248 | zone characters '0' and ':' are refused by the current revision and accepted by the legacy one |
| GsmDateTime.LegacyZoneOfNibbles | Windows/SmsRouterPi/GsmDecoder.h:240-243 | zone characters '0' + nibble give a zone between 0 and 7 hours |
| GsmListing.IndexOf | Windows/SmsRouterPi/GsmDecoder.h:256-259 | the first occurrence of the character, or the length |
| GsmListing.DigitRun | Windows/SmsRouterPi/GsmDecoder.h:265-271 | the maximal run of leading digits |
| GsmListing.SkipPastSpace | Windows/SmsRouterPi/GsmDecoder.h:252-261 | succeeds iff a space exists and is not last; it stops just past the first space |
| GsmListing.ReadDigits | Windows/SmsRouterPi/GsmDecoder.h:263-273 | the digit loop gives the run's decimal value, failing when the run reaches the end |
| GsmListing.GetMessageIndexFromListing | Windows/SmsRouterPi/GsmDecoder.h:250-276 | the method computes `ListingIndex` |
| GsmListing.NoSpaceFails | Windows/SmsRouterPi/GsmDecoder.h:254-259 | a line without a space has no index |
| GsmListing.DigitsToEndFail | Windows/SmsRouterPi/GsmDecoder.h:270 | digits that run to the end of the line give no index |
| GsmListing.ListingRoundTrip | Windows/SmsRouterPi/GsmDecoder.h:250-276 | the index printed after the first space and ended by a non-digit is read back |
| GsmListing.EmptyRunIsZero | Windows/SmsRouterPi/GsmDecoder.h:263-273 | a space followed at once by a non-digit gives index 0 |
| GsmListing.DigitRunEndsAt | Windows/SmsRouterPi/GsmDecoder.h:263-273 | a digit run ended by a non-digit gives its value; one ended by the end of the line gives none |
| GsmPdu.SemiOctets | Code/GsmDecoder.h:220-226 | two characters per byte |
| GsmPdu.SemiOctetsAt | Code/GsmDecoder.h:224-225 | character k is '0' + the low nibble of byte k/2 for even k, and '0' + the high nibble for odd k |
| GsmPdu.Utf16Units | Code/GsmDecoder.h:315 | floor(len/2) units |
| GsmPdu.Utf16UnitsAt | Windows/SmsRouterPi/GsmDecoder.h:409 | unit i is byte 2i + 256·byte 2i+1 (little-endian) |
| GsmPdu.SenderDigits | Code/GsmDecoder.h:216-234 | exactly `senderNum` characters |
| GsmPdu.SenderDigitsAt | Code/GsmDecoder.h:220-234 | sender character k is the low or high nibble of byte k/2, and that byte exists |
| GsmPdu.TimestampText | Code/GsmDecoder.h:246-254 | 14 characters |
| GsmPdu.SkipBytes | Code/GsmDecoder.h:197-202 | skipping n bytes succeeds iff they are there |
| GsmPdu.ReadSemiOctets | Code/GsmDecoder.h:220-226 | the nibble loop succeeds iff the bytes are there, and yields their semi-octets |
| GsmPdu.CopyBytes | Code/GsmDecoder.h:306-313 | the UCS-2 copy loop succeeds iff `len` bytes remain, and yields them |
| GsmPdu.SkipToNumber | Code/GsmDecoder.h:191-214 | the walk reaches the sender's semi-octets iff the SMSC address, flags, count and type are all there |
| GsmPdu.ParseDeliver | Code/GsmDecoder.h:186-337 | the iterator walk computes `Deliver` |
| GsmPdu.ReadTimestamp | Code/GsmDecoder.h:236-254 | PID, DCS and seven time stamp bytes are read iff present; the scheme is the DCS byte |
| GsmPdu.ParseDateTime | Code/GsmDecoder.h:256 | calls the revision's date parser |
| GsmPdu.ParseAfterSender | Code/GsmDecoder.h:236-337 | computes `AfterSender` |
| GsmPdu.SkipValidity | Code/GsmDecoder.h:261-279 | skips 7 bytes for flags 0x10 and 0x08, 1 for 0x10 alone, and 0 otherwise, failing at the end |
| GsmPdu.ReadUcs2Message | Code/GsmDecoder.h:287-316 | computes `Ucs2Message`: optional header skip, then `len` bytes as UTF-16 units |
| GsmPdu.DecodeSevenBit | Code/GsmDecoder.h:322-335 | computes `SevenBitMessage`: header skip `MulDiv(UDHL+1, 8, 7)`, the decoder's result ignored |
| GsmPdu.ParseUserData | Code/GsmDecoder.h:281-337 | computes `UserData` |
| GsmPdu.ParseGsmPDU | Windows/SmsRouterPi/GsmDecoder.h:280-431 | either revision's walk computes `ParsePdu` |
| GsmPdu.ShortHeaderFails | Code/GsmDecoder.h:191-226 | before the sender's semi-octets are complete, the walk fails and leaves every output as it was |
| GsmPdu.SenderStep | Code/GsmDecoder.h:228-234 | once the sender's bytes are present, `from` gets exactly the `senderNum` digits, whatever fails later |
| GsmPdu.AfterSenderOutputs | Code/GsmDecoder.h:236-337 | after the sender, `from` is unchanged, and `datetime` is set only by the parsed time stamp |
| GsmPdu.TimestampStep | Code/GsmDecoder.h:256-261 | with the time stamp parsed, the walk goes on to the user data with `datetime` set |
| GsmPdu.AcceptedLayout | Code/GsmDecoder.h:186-283 | an accepted PDU holds every field up to the user-data length byte |
| GsmPdu.AfterSenderAccepted | Code/GsmDecoder.h:236-283 | acceptance after the sender needs PID, DCS, the time stamp, the validity period and the length byte |
| GsmPdu.AcceptedDateTime | Code/GsmDecoder.h:246-259 | the `datetime` of an accepted PDU is its parsed time stamp |
| GsmPdu.UserDataBinary | Code/GsmDecoder.h:317-321 | a scheme with 0x04 and without 0x08 is refused |
| GsmPdu.UserDataSevenBit | Code/GsmDecoder.h:322-337 | 7-bit data is accepted once the length byte is there, even when the septet decoder fails; the message is the decoder's text |
| GsmPdu.UserDataUcs2 | Code/GsmDecoder.h:287-316 | UCS-2 data is accepted iff its bytes are there, and the message is their text |
| GsmPdu.Ucs2Bytes | Code/GsmDecoder.h:291-315 | the UCS-2 text is `len` bytes after the optional header, read as len/2 little-endian units |
| GsmPdu.UncheckedHeaderRead | Code/GsmDecoder.h:326-334 | the unchecked header-length read past the end is harmless: any value gives a skip of at least 1, and the decoder fails with no text |
| GsmPdu.WalkRevisionsAgree | Windows/SmsRouterPi/GsmDecoder.h:280-431 | on bytes the current revision accepts, the legacy walk gives the same result |
| GsmPdu.PduRevisionsAgree | Windows/SmsRouterPi/GsmDecoder.h:280-431 | the same for the whole `ParseGsmPDU`, hex decoding included |
| LinuxEnv.RtlEnlargedUnsignedDivide | Linux/SmsRouterPi/LinuxEnv.cpp:233-241 | quotient and remainder truncated to 32 bits; exact (q·d + r = dividend) when the quotient fits |
| LinuxEnv.DivideFits | Linux/SmsRouterPi/LinuxEnv.cpp:233-241 | the remainder survives the 32-bit truncation, and the quotient does too when it is below 2^32 |
| LinuxEnv.HighWordTest | Linux/SmsRouterPi/LinuxEnv.cpp:256 | `nDivisor > HighPart` holds iff the quotient is below 2^32 |
| LinuxEnv.QuotientBelow | Linux/SmsRouterPi/LinuxEnv.cpp:256-258 | the quotient is below 2^32 iff the dividend is below divisor·2^32 |
| LinuxEnv.QuotientTests | Linux/SmsRouterPi/LinuxEnv.cpp:256-262 | the high-word test and the sign test pass iff the quotient fits a non-negative int, and then the quotient is exact |
| LinuxEnv.DivideRounded | Linux/SmsRouterPi/LinuxEnv.cpp:256-266 | −1 for a zero divisor or a quotient over `INT_MAX`; otherwise the quotient, negated on request |
| LinuxEnv.MulDiv | Linux/SmsRouterPi/LinuxEnv.cpp:243-267 | −1 for d = 0 or an overflowing quotient; otherwise \|a\|·\|b\|/\|d\| rounded half up, negated iff an odd number of operands are negative |
| LinuxEnv.MulDivRoundsHalfUp | Linux/SmsRouterPi/LinuxEnv.cpp:254-262 | for a, b ≥ 0 and d > 0, MulDiv is (a·b + d/2)/d |
| LinuxEnv.HeaderSeptetsRounded | Code/GsmDecoder.h:331 | MulDiv(n+1, 8, 7) = ((n+1)·8 + 3)/7, between 1 and 293, for every header length byte |
| LinuxEnv.HeaderSeptetsVersusCeiling | Code/GsmDecoder.h:331 | that skip is the ceiling iff (n+1) mod 7 ∉ {1,2,3}; otherwise it is one septet short |
| LinuxEnv.RoundedVersusCeiling | Linux/SmsRouterPi/LinuxEnv.cpp:254 | (8m+3)/7 equals the ceiling (8m+6)/7 iff m mod 7 ∉ {1,2,3}, and is one less otherwise |
| Shared.LowerStr | Code/Shared.h:78-79 | each character lowered, the length kept |
| Shared.CompareCI | Code/Shared.h:72-93 | the comparator's loop computes `CILess` |
| Shared.CILessIrreflexive | Code/Shared.h:72-93 | no key is less than itself |
| Shared.CIPrefixUnordered | Code/Shared.h:76-91 | a string and a longer one that starts with it (up to case) are ordered neither way |
| Shared.CILessTransitive | Code/Shared.h:72-93 | the order is transitive |
| Shared.CILessOfLower | Code/Shared.h:78-79 | spellings that differ only in case compare alike against everything |
| Shared.UnorderedNotTransitive | Code/Shared.h:72-93 | "a" is unordered against "ab" and "ac", but "ab" < "ac": not a strict weak order |
| Shared.Equal | Code/Shared.h:99-103 | true iff same length and element-wise equal |
| Shared.EqualIsEquality | Code/Shared.h:99-103 | `Equal` is sequence equality |
| Shared.LowerBound | Code/Shared.cpp:46 | the first entry whose key is not less than the key |
| Shared.LowerBoundSplits | Code/Shared.cpp:46 | in a sorted map no entry from the lower bound on is less than the key |
| Shared.Find | Code/Shared.cpp:46 | a found position is an entry of the map |
| Shared.InsertOrAssign | Code/Shared.cpp:32 | the entry at the returned position holds the new value |
| Shared.InsertOrAssignSorted | Code/Shared.cpp:32 | `insert_or_assign` keeps the entries in key order |
| Shared.InsertThenFind | Code/Shared.cpp:32 | after `insert_or_assign`, `find` of the key reaches the entry written |
| Shared.CaseVariantsAgree | Code/Shared.cpp:22-32 | keys that differ only in case find the same entry and insert at the same place |
| Shared.Step | Code/Shared.cpp:28-37 | the target is always an existing entry |
| Shared.ParseArguments | Code/Shared.cpp:22-40 | the loop computes `Parse` from no target |
| Shared.ParseSorted | Code/Shared.cpp:22-40 | the map stays in key order whatever the arguments |
| Shared.EmptyItemIgnored | Code/Shared.cpp:28 | empty items change nothing |
| Shared.LeadingValueIgnored | Code/Shared.cpp:34-37 | values before the first flag are dropped |
| Shared.FlagValue | Code/Shared.cpp:30-37 | a flag followed by a value makes `find` give that value; a second value overwrites the first |
| Shared.LowerBoundAfterValue | Code/Shared.cpp:36 | setting a value keeps every lookup where it was |
| Shared.CaseInsensitiveFlags | Code/Shared.cpp:32 | "-User" then "-user" address one entry |
| Shared.ValidateArguments | Code/Shared.cpp:42-60 | true iff every required key is found with a non-empty value |
| Shared.ChunkLength | Code/Shared.cpp:127-155 | never beyond the data; zero iff size·nmemb is zero (mod 2^64) or everything was sent |
| Shared.UploadStatus.Read | Code/Shared.cpp:123-156 | copies the next `ChunkLength` bytes from `bytes_read` and advances by that much, keeping `bytes_read` ≤ size |
| Shared.UploadedInOrder | Code/Shared.cpp:134-151 | successive calls hand over a prefix of the rest of the message, in order |
| Shared.UploadedAll | Code/Shared.cpp:127-151 | calls with room for at least one byte each hand over the whole message |
| Shared.UploadedNothing | Code/Shared.cpp:138-155 | once everything is sent, every call returns 0 |
| Shared.UploadStatus.constructor | Code/Shared.cpp:62-65 | the message to send, nothing sent yet |
| LineFraming.FirstEndLine | Code/Shared.h:108 | the first CR or LF, with none before it |
| LineFraming.RunEnd | Code/Shared.h:108 | the end of the maximal CR/LF run |
| LineFraming.NextLineSplits | Code/Shared.h:108 | no line iff no CR/LF; otherwise buffer = line + non-empty terminator run + rest, and the rest does not start with CR/LF |
| LineFraming.NextLineOfFramed | Code/Shared.h:125-137 | a line sent with a terminator run is read back with exactly the rest after it |
| LineFraming.PlatformSerial.CanReadLine | Code/Shared.h:125-138 | without CR/LF: false, buffer unchanged; otherwise the line and the text after the whole run |
| LineFraming.EmptyLineExample | Code/Shared.h:108 | `CanReadLine` can return an empty line: "\r\nOK" gives "" first |
| LineFraming.PlatformSerial.constructor | Code/Shared.h:105-138 | the line buffer starts empty |
| Overlapped.LaterTransitive | Code/OverlappedComm.h:116-164 | the "reads only go forward" relation composes |
| Overlapped.Write | Code/OverlappedComm.h:66-92 | succeeds iff writes go through, and then appends the command's C string + CR LF; the buffer is untouched |
| Overlapped.Read | Code/OverlappedComm.h:116-164 | a read line is never empty and holds no CR/LF; success consumes input; once cancelled, it fails with nothing changed |
| Overlapped.ReadSkips | Code/OverlappedComm.h:129-132 | an empty segment at the front is dropped and the loop goes on |
| Overlapped.ReadGives | Code/OverlappedComm.h:123-136 | a non-empty line at the front is returned and erased with its terminator |
| Overlapped.ReadAppends | Code/OverlappedComm.h:139-160 | without a line, a chunk read is appended at the end of the buffer |
| Overlapped.ReadFails | Code/OverlappedComm.h:142-157 | without a line, a failed or cancelled read fails |
| Overlapped.ReadKeepsText | Code/OverlappedComm.h:116-164 | old buffer + text read = skipped terminators + line + terminator run + new buffer: nothing lost or reordered |
| Overlapped.ReadFramed | Code/OverlappedComm.h:116-164 | a buffer holding a line, CR LF and a rest gives that line and keeps the rest |
| Overlapped.ReadTextFramed | Windows/SmsRouterPi/OverlappedComm.h:119-166 | the same for both revisions when the line holds no NUL |
| Overlapped.LineText | Code/OverlappedComm.h:134 | the current revision's line ends at the first NUL; the legacy line is whole |
| Overlapped.ReadText | Windows/SmsRouterPi/OverlappedComm.h:119-166 | `ReadLine` as the caller sees it: no CR/LF in the line, non-empty in the legacy revision |
| Overlapped.Execute | Code/OverlappedComm.h:181-205 | only goes forward |
| Overlapped.ExecuteOfReads | Code/OverlappedComm.h:181-205 | after the write and a matching echo, the result is whether the next line is "OK" |
| Overlapped.ExecuteFramed | Code/OverlappedComm.h:181-205 | a modem that echoes and answers "OK" makes it succeed, with the command written + CR LF |
| Overlapped.EchoFramed | Code/OverlappedComm.h:181-194 | the command is written with CR LF, and its framed echo is read back as the command |
| Overlapped.Collect | Code/OverlappedComm.h:227-240 | the collected lines are never "OK"/"ERROR" and hold no CR/LF |
| Overlapped.CollectGoesOn | Code/OverlappedComm.h:234-239 | another line is collected and the loop goes on |
| Overlapped.CollectStops | Code/OverlappedComm.h:234-237 | "OK" or "ERROR" ends the loop with success |
| Overlapped.CollectStepStops | Code/OverlappedComm.h:227-240 | a failed read, "OK" or "ERROR" ends the collection with what was gathered so far |
| Overlapped.CollectFramedEnd | Code/OverlappedComm.h:234-237 | a framed "OK"/"ERROR" at the front ends the collection with no line, successfully |
| Overlapped.ExecuteResults | Code/OverlappedComm.h:207-243 | only goes forward |
| Overlapped.ExecuteResultsOfReads | Code/OverlappedComm.h:211-227 | after the write and a matching echo, it is the collecting loop |
| Overlapped.CollectFramed | Code/OverlappedComm.h:227-243 | framed lines up to a framed "OK"/"ERROR" are collected exactly, with success |
| Overlapped.ExecuteResultsFramed | Code/OverlappedComm.h:207-243 | a modem that echoes, answers some lines and then "OK"/"ERROR" yields success with exactly those lines |
| Overlapped.ExecuteResult | Code/OverlappedComm.h:245-261 | only goes forward |
| Overlapped.ExecuteResultFirst | Code/OverlappedComm.h:245-261 | the first collected line, or the line unchanged when none was collected |
| Overlapped.EchoSelf | Code/OverlappedComm.h:194 | every command is its own echo in both revisions |
| Overlapped.CancelledFails | Code/OverlappedComm.h:118 | once cancel is signalled, every command fails without reading |
| Overlapped.EchoRevisions | Windows/SmsRouterPi/OverlappedComm.h:197 | for a NUL-free command, `Equal` and `wcscmp` accept the same echoes; a NUL in the command makes `Equal` reject every echo |
| Overlapped.AnswerRevisions | Code/OverlappedComm.h:166-179 | the "OK"/"ERROR" tests agree between revisions |
| Overlapped.ExecuteRevisions | Windows/SmsRouterPi/OverlappedComm.h:184-208 | `ExecuteATCommand` behaves the same in both revisions for a NUL-free command |
| Overlapped.OverlappedComm.constructor | Code/OverlappedComm.h:26-38 | empty buffer, no reads taken, not cancelled, nothing written |
| Overlapped.OverlappedComm.WriteLine | Code/OverlappedComm.h:66-92 | computes `Write` on the object's state |
| Overlapped.OverlappedComm.GetNewLinePos | Code/OverlappedComm.h:99-114 | the first CR/LF (or the end), and the end of its run |
| Overlapped.OverlappedComm.ReadLine | Code/OverlappedComm.h:116-164 | computes `ReadText` on the object's state |
| Overlapped.OverlappedComm.ExecuteATCommand | Code/OverlappedComm.h:181-205 | computes `Execute` |
| Overlapped.OverlappedComm.ExecuteATCommandResults | Code/OverlappedComm.h:207-243 | computes `ExecuteResults` |
| Overlapped.OverlappedComm.CollectLines | Code/OverlappedComm.h:227-240 | computes `Collect` |
| Overlapped.OverlappedComm.ExecuteATCommandResult | Code/OverlappedComm.h:245-261 | computes `ExecuteResult` |
| Sim800c.ReadLineS | Code/SIM800C.cpp:33-42 | success consumes one input entry |
| Sim800c.ReadLineResult | Code/SIM800C.cpp:33-42 | a read takes the next entry, or fails when the port fails or has nothing more |
| Sim800c.Index | Code/SIM800C.cpp:284 | `mStore[key]` inserts an empty value for a missing key and changes no other entry |
| Sim800c.OnCommandS | Code/SIM800C.cpp:158-231 | reads only go forward and the SMS cache only grows |
| Sim800c.OnCommandFollows | Code/SIM800C.cpp:158-231 | handling a code only reads, appends to the caches, raises the flag and stores; it writes nothing and calls nothing back |
| Sim800c.OnCommandStore | Code/SIM800C.cpp:158-171 | the store changes only for "+CPIN" (the raw value) and for a matching "+CNUM" (the number) |
| Sim800c.ListingS | Code/SIM800C.cpp:172-183 | reads only go forward and the SMS cache only grows |
| Sim800c.ListingCachesNextLine | Code/SIM800C.cpp:172-183 | "+CMGL" reads exactly one more line and caches (value, line); a failed read caches nothing |
| Sim800c.NewMessageRaisesFlag | Code/SIM800C.cpp:188-191 | "+CMTI" only sets `mNeedCheckSms` |
| Sim800c.OtherCodesPrinted | Code/SIM800C.cpp:184-195 | "+CREG", "+CRING" and unknown codes change no state |
| Sim800c.CallerDedup | Code/SIM800C.cpp:196-226 | a non-matching value changes nothing; otherwise the caller is cached iff new or more than 60 whole seconds later, and becomes the recent caller either way |
| Sim800c.RepeatWindow | Code/SIM800C.cpp:204 | a call is new iff the caller differs or the truncated seconds exceed 60 |
| Sim800c.CallerRepeatExample | Code/SIM800C.cpp:196-226 | the same caller 30 s later is not cached again; 61 s after that it is |
| Sim800c.ExecLoop | Code/SIM800C.cpp:95-125 | success consumes input; the SMS cache only grows |
| Sim800c.ExecLoopResult | Code/SIM800C.cpp:95-125 | succeeds only on an "OK" line, fails on "ERROR" or a failed read; it writes and calls back nothing |
| Sim800c.ExecuteS | Code/SIM800C.cpp:88-126 | success consumes input; the SMS cache only grows |
| Sim800c.ExecuteResult | Code/SIM800C.cpp:88-126 | writes the command when the port takes it, and succeeds only on "OK" |
| Sim800c.ExecuteWriteFails | Code/SIM800C.cpp:90-93 | a failed write ends the command at once |
| Sim800c.ReplyStatus | Code/SIM800C.cpp:103-120 | skipped lines, then "OK" or "ERROR": success iff "OK", every line read, nothing else changed |
| Sim800c.SkipStep | Code/SIM800C.cpp:103-106 | empty lines and echoes are only read |
| Sim800c.ReplyDispatches | Code/SIM800C.cpp:108-112 | a result code in a reply goes to `OnCommand` with its suffix, and the loop goes on |
| Sim800c.SkippedOutcome | Code/SIM800C.cpp:103-106 | a skipped line keeps the reply loop's outcome within what a reply may do |
| Sim800c.DispatchedOutcome | Code/SIM800C.cpp:108-112 | a dispatched result code keeps the reply loop's outcome within what a reply may do |
| Sim800c.EchoThenOK | Code/SIM800C.cpp:88-126 | a command answered by its echo and "OK" succeeds after two reads, with the command written |
| Sim800c.DeleteCommandPrefix | Code/SIM800C.cpp:255 | the delete command starts with "AT+CMGD=" |
| Sim800c.ProcessSmsS | Code/SIM800C.cpp:233-262 | a success leaves the cache as long or consumes input |
| Sim800c.ProcessSmsResult | Code/SIM800C.cpp:233-262 | keeps the cached entries and writes nothing but a delete |
| Sim800c.NoIndexIgnored | Code/SIM800C.cpp:236-240 | no index: true, with nothing changed |
| Sim800c.ProcessSmsThrows | Code/SIM800C.cpp:242-247 | an index beyond `int`, or a PDU the decoder throws on, leaves the session by an exception |
| Sim800c.ProcessSmsDeletes | Code/SIM800C.cpp:242-261 | with an index, `AT+CMGD=<index>` is issued whether or not the PDU parsed; `OnNewSms` fires only on parse success and when set; the result is the delete's |
| Sim800c.DeletesListedIndex | Code/SIM800C.cpp:242-255 | listing index n leads to writing `AT+CMGD=n` |
| Sim800c.DeleteResult | Code/SIM800C.cpp:255-259 | a delete keeps both caches' entries and writes only a delete command |
| Sim800c.CallerEvents | Code/SIM800C.cpp:60-68 | one `OnNewCaller` call per cached caller, in order |
| Sim800c.DrainOne | Code/SIM800C.cpp:60-68 | one turn of the caller loop: the head is reported if the callback is set, then erased |
| Sim800c.ProcessCacheS | Code/SIM800C.cpp:44-71 | reads only go forward |
| Sim800c.ProcessCacheResult | Code/SIM800C.cpp:44-71 | success empties both caches; a failure keeps the failing entry at the head and the callers untouched; only deletes are written |
| Sim800c.UnindexedDropped | Code/SIM800C.cpp:44-71 | entries without an index are all dropped, then the callers are drained |
| Sim800c.FailureKeepsEntry | Code/SIM800C.cpp:48-53 | a failing entry stays at the head of the cache, and no caller is handed out |
| Sim800c.RunAllSends | Code/SIM800C.cpp:264-356 | a run of commands writes a prefix of them, all of them when it succeeds |
| Sim800c.SentOfFirst | Code/SIM800C.cpp:266-282 | a command that is written or not leaves the writes a prefix of the commands |
| Sim800c.PinStepOrder | Code/SIM800C.cpp:284-356 | from the PIN check on, a success writes the setup commands and the listing, then deletes only, then the last four commands |
| Sim800c.NumberStepOrder | Code/SIM800C.cpp:308-356 | from the number check on, a success writes AT+CMGL=4, then deletes only, then the last four commands |
| Sim800c.InitSendsInOrder | Code/SIM800C.cpp:264-356 | a successful `Init` writes AT, ATE0, AT+CPIN?, AT+CMGF=0, AT+CRC=1, AT+CNUM and AT+CMGL=4, then deletes only, then AT+CREG=1, AT+CLIP=1, AT+CNMI=2 and AT+CREG? |
| Sim800c.InitNeedsReadyPin | Code/SIM800C.cpp:284-288 | a PIN state other than "READY" fails `Init` after AT+CPIN?, with nothing more sent |
| Sim800c.InitNeedsNumber | Code/SIM800C.cpp:308-314 | an empty subscriber number fails `Init` before the listing |
| Sim800c.TurnStartS | Code/SIM800C.cpp:364-378 | reads only go forward |
| Sim800c.TurnStartResult | Code/SIM800C.cpp:364-378 | earlier writes are kept; with `mNeedCheckSms` raised the turn writes AT+CMGL=4, without it the turn is just `ProcessCache`; a success leaves both caches empty |
| Sim800c.LoopResult | Code/SIM800C.cpp:362-400 | earlier writes are kept; a raised `mNeedCheckSms` makes the turn list the messages; the loop returns true only after a failed read, with both caches empty |
| Sim800c.PerformLoopResult | Code/SIM800C.cpp:358-404 | earlier writes are kept, and true comes only after a failed read with both caches empty |
| Sim800c.LastTurn | Code/SIM800C.cpp:362-400 | the session at the start of the loop's last turn, never behind the start |
| Sim800c.LoopOutcome | Code/SIM800C.cpp:362-400 | in the last turn, a failing start (listing or `ProcessCache`) makes the loop return false; otherwise the read after it failed and the loop returns true |
| Sim800c.ReadFailureEndsLoop | Code/SIM800C.cpp:380-384 | a turn whose start succeeds and whose read fails ends the loop with true |
| Sim800c.PerformLoopOutcome | Code/SIM800C.cpp:358-404 | true iff the initial AT succeeds and the start of the last turn succeeds |
| Sim800c.NetworkStateMessage | Code/SIM800C.cpp:128-156 | the printed message always starts with "Network state change: " |
| Sim800c.NetworkStateOfQuery | Code/SIM800C.cpp:128-137 | the message `PrintNetworkState` prints ignores what comes before the first comma |
| Sim800c.NetworkStateNames | Code/SIM800C.cpp:139-155 | the three named states and a pass-through |
| Sim800c.OtherStatesPassThrough | Code/SIM800C.cpp:151-154 | every state other than 0, 1 and 2 (without a comma) is printed as it came |
| Sim800c.SingleDigitStates | Code/SIM800C.cpp:139-155 | a state without a mode before it is named the same way |
| Sim800c.SubscriberNumberStored | Code/SIM800C.cpp:164-170 | after a matching "+CNUM", `GetSubscriberNumber` yields that number |
| Sim800c.SubscriberNumberReads | Code/SIM800C.cpp:406-409 | reading the number adds at most an empty entry and changes no stored one |
| Sim800cDevice.SIM800C.constructor | Code/SIM800C.cpp:18-24 | empty caches and store, flag clear, recent caller "" at the start time, no callbacks (Code/SIM800C.h:37, 56-57) |
| Sim800cDevice.SIM800C.WriteLine | Code/SIM800C.cpp:26-31 | computes `WriteS` |
| Sim800cDevice.SIM800C.ReadLine | Code/SIM800C.cpp:33-42 | computes `ReadLineS` |
| Sim800cDevice.SIM800C.OnCommand | Code/SIM800C.cpp:158-231 | computes `OnCommandS` |
| Sim800cDevice.SIM800C.OnListing | Code/SIM800C.cpp:172-183 | computes `ListingS` |
| Sim800cDevice.SIM800C.OnCaller | Code/SIM800C.cpp:196-226 | computes `CallerS` |
| Sim800cDevice.SIM800C.ExecuteATCommand | Code/SIM800C.cpp:88-126 | computes `ExecuteS` |
| Sim800cDevice.SIM800C.ProcessSms | Code/SIM800C.cpp:233-262 | computes `ProcessSmsS` |
| Sim800cDevice.SIM800C.ProcessCache | Code/SIM800C.cpp:44-71 | computes `ProcessCacheS` |
| Sim800cDevice.SIM800C.NotifyCallers | Code/SIM800C.cpp:58-68 | computes `DrainCallers` |
| Sim800cDevice.SIM800C.Init | Code/SIM800C.cpp:264-356 | computes `InitS` |
| Sim800cDevice.SIM800C.PinStep | Code/SIM800C.cpp:284-306 | computes `PinStepS` |
| Sim800cDevice.SIM800C.NumberStep | Code/SIM800C.cpp:308-355 | computes `NumberStepS` |
| Sim800cDevice.SIM800C.RunCommands | Code/SIM800C.cpp:266-282 | computes `RunAll` |
| Sim800cDevice.SIM800C.PerformLoop | Code/SIM800C.cpp:358-404 | computes `PerformLoopS` |
| Sim800cDevice.SIM800C.TurnStart | Code/SIM800C.cpp:364-378 | computes `TurnStartS` |
| Sim800cDevice.SIM800C.GetSubscriberNumber | Code/SIM800C.cpp:406-409 | computes `SubscriberNumberS` |
| MainLoop.WalkS | Code/MainLoop.cpp:244-276 | only goes forward on the port; an exception from the PDU parser implies failure |
| MainLoop.ProcessMessagesS | Code/MainLoop.cpp:235-277 | only goes forward; an exception implies failure |
| MainLoop.ListenS | Code/MainLoop.cpp:221-232 | only goes forward |
| MainLoop.SetupS | Code/MainLoop.cpp:171-203 | only goes forward |
| MainLoop.StartS | Code/MainLoop.cpp:171-219 | only goes forward |
| MainLoop.CommLoopS | Code/MainLoop.cpp:171-233 | only goes forward |
| MainLoop.Entries | Code/MainLoop.cpp:246-267 | every entry's listing line starts with "+CMGL" |
| MainLoop.ExecuteWrites | Code/MainLoop.cpp:269 | `ExecuteATCommand` writes its command once, when writes succeed |
| MainLoop.ExecuteResultsWrites | Code/MainLoop.cpp:237-242 | `ExecuteATCommandResults` writes its command once when writes succeed, and succeeds only then |
| MainLoop.ListingDeleteText | Code/MainLoop.cpp:269 | `AT+CMGD=%i` holds no NUL and starts as a delete |
| MainLoop.WalkAgainstEntries | Code/MainLoop.cpp:244-274 | the walk writes deletes only; a success writes one `AT+CMGD=<index>` per leading "+CMGL" entry, in order, and mails exactly the entries whose PDU parsed |
| MainLoop.DeleteWritten | Code/MainLoop.cpp:269-273 | one delete writes only a delete command, and writes it when it succeeds |
| MainLoop.ProcessMessagesAgainstEntries | Code/MainLoop.cpp:235-277 | writes `AT+CMGL=4`, then deletes only; a failed listing fails with no mail; a success deletes and mails exactly the listed entries |
| MainLoop.MissingIndexStops | Code/MainLoop.cpp:248-252 | a first listing line without an index fails at once: no delete and no mail after the listing |
| MainLoop.ListenWritesListings | Code/MainLoop.cpp:221-232 | the listening loop writes nothing but listings and deletes |
| MainLoop.SetupWritten | Code/MainLoop.cpp:171-203 | a successful set-up writes AT, AT+CPIN?, AT+CMGF=0 and AT+CNUM, in order |
| MainLoop.PinWritten | Code/MainLoop.cpp:179-190 | a passed PIN stage writes AT+CPIN? |
| MainLoop.ModeWritten | Code/MainLoop.cpp:192-196 | a passed mode stage writes AT+CMGF=0 |
| MainLoop.ExecuteOkWrites | Code/MainLoop.cpp:173-219 | a successful `ExecuteATCommand` of a NUL-free command has written it once |
| MainLoop.ExecuteResultOkWrites | Code/MainLoop.cpp:179-203 | the same for `ExecuteATCommandResult` |
| MainLoop.StartOrder | Code/MainLoop.cpp:171-219 | a successful start writes AT, AT+CPIN?, AT+CMGF=0, AT+CNUM and AT+CMGL=4, then deletes only, and AT+CNMI=2 last |
| MainLoop.CommLoopAgainstStart | Code/MainLoop.cpp:171-233 | the loop is reached iff the start succeeds, and then writes only listings and deletes; a failed start is the whole outcome |
| MainLoop.PrefixTestsAgree | Windows/SmsRouterPi/Main.cpp:273 | for a NUL-free prefix, `wcsstr(line.c_str(), prefix) == line.c_str()` iff `starts_with` |
| MainLoop.LineTestsAgree | Windows/SmsRouterPi/Main.cpp:252 | both revisions pick the same listing lines and notices |
| MainLoop.LockedSimPassesCurrentOnly | Code/MainLoop.cpp:186-190 | an answer without 'R' ("+CPIN: SIM PIN") passes the current check (unsigned `find` < 0 is never true) and fails the legacy `wcsstr` check |
| MainLoop.ReadySimPasses | Windows/SmsRouterPi/Main.cpp:217-221 | an answer with "READY" before any NUL passes both checks |
| MainLoop.NoReady | Code/MainLoop.cpp:186-190 | a text without 'R' does not contain "READY" |
| MainLoop.ProcessMessages | Code/MainLoop.cpp:235-277 | computes `ProcessMessagesS` on the port object |
| MainLoop.WalkListing | Code/MainLoop.cpp:244-274 | the while loop computes `WalkS` from the first line |
| MainLoop.Setup | Code/MainLoop.cpp:173-203 | computes `SetupS` |
| MainLoop.Start | Code/MainLoop.cpp:173-219 | computes `StartS` |
| MainLoop.Listen | Code/MainLoop.cpp:221-232 | computes `ListenS` |
| MainLoop.ProcessCommLoop | Windows/SmsRouterPi/Main.cpp:202-260 | computes `CommLoopS` |

## Left out

- Serial transport: `ReadFile`/`WriteFile`, overlapped waits and the serial back-ends of both platforms. Reads are a given sequence of results (text, failure, or cancel), and whether writes succeed is one flag per port.
- Threads, the port registry, cancellation events beyond the flag seen by `ReadLine`, signal and console handlers, and device discovery.
- `SendEmail` and the libcurl set-up, apart from the upload callback. Sending mail in `ProcessMessages` retries every 30 minutes until it succeeds, so the model treats it as always succeeding and records the mails as an output.
- JSON configuration, the Win32 message loop and the `main`/`wmain` entry points.
- Console output (`OutputConsole`): its only effect is output. `NetworkStateMessage` gives the text that `PrintNetworkState` prints.
- Clocks: the current year, the steady-clock time and the local-time text are parameters.
- Charset conversions: UTF-8 to and from platform strings is the identity, because AT traffic is ASCII. `towlower` is ASCII lowering. `UCS2ToPlatformString` is a parameter `ucs2`.
- `ParseSubscriberNumber` is not part of this model: `ProcessCommLoop` takes it as a parameter `parseNumber`.
- `std::regex` engines: each pattern is written out as the match it finds.
- `OnNewSms`/`OnNewCaller` are a log of calls plus a flag per callback saying whether it is set. The callbacks' own effects are not modelled.
- Exceptions (`std::stoul`, `std::stoi`) that leave the session or the loop: an `aborted` flag plus a false return.
- `GsmListing.ListingIndex`: the digit accumulator is an unbounded integer. The source's `int` overflow for more than nine digits is not modelled.
- `GsmPdu.HeaderLengthAt`: the unchecked read of the header length past the end of the buffer is undefined behaviour. The model uses 0 there, and `GsmPdu.UncheckedHeaderRead` shows that every value gives the same result.
- `Sim800c.ProcessCacheS`: the SMS cache is a queue re-checked each step. Reallocation of the vector while `ProcessCache` iterates is not modelled.
- `LinuxEnv.MulDiv`: requires operands other than `INT_MIN`, whose negation is undefined.
- `Overlapped.OverlappedComm.ReadLine`: the line it leaves in the caller's string on failure is not modelled, because no caller reads it.
- `Overlapped.Write`: a write that is cancelled part-way is a failed write. The bytes it may have sent are not recorded.
- The current revision's `DecodeGsmSeptetData`, `DecodeGsmSeptet` and `ParseGsmPDU` are the same definitions as the legacy ones. Only the hex decoder and the date parser differ, and those are modelled per revision.
