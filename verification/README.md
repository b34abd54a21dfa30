# QTT platform: verified models of its rules and engines

The platform is a Frappe app. Most of it is plumbing; under it lie rule modules and a few stateful engines whose promises
can be stated exactly. This project models those in Dafny and proves what they promise, over every input or every run,
and for saves and the encryption job over every interleaving. Where the code does not keep a promise, the failing cases
are proved beside the exact condition under which it does.

`dafny verify dfyconfig.toml` checks everything.

| modules | what they model |
|---|---|
| `OneTypo`, `Search`, `SmartList`, `Narrowing` | the typo rule (an edit-distance table with a swap case), the three pieces of a word SQL narrows by, and the list endpoint that narrows, checks, retries with typos and pages, with the rows it misses |
| `Base64`, `Base64Bits`, `MailFolders` | IMAP folder names in modified UTF-7, on UTF-16 and base64, bit by bit, with a lenient decoder |
| `Utf8`, `Folding`, `Lines` | folding calendar lines on UTF-8 octets, and taking a file apart into its lines |
| `Escapes`, `VCard`, `VCardForms` | the vCard reader and writer, with escaping and structured values, and what the lines of any card look like and mean |
| `Dates`, `Recurrence` | civil dates and the expansion of repeating events, against a declarative recurrence set |
| `Billing` | invoice billing of subscriptions: daily renewals, payments, voids, suspension |
| `Encryption`, `EncryptionRuns`, `EncryptionSwitch` | switching stored files to encrypted or back while people read and write, how a run ends, and the job's own loop as a run of that machine |
| `Paths`, `FilesCore`, `FilesEngine`, `Overlaps` | versions and the recycle bin over the object store, and saves that overlap |
| `Moves`, `FreeNames` | moves that carry their rows along, and the choice of a free name |
| `Cards`, `Board` | card positions: placing, moving, renumbering |
| `Drawing` | merging whiteboard drawings, and sending only what changed |
| `Gstin`, `Otp` | the GSTIN check character, and one-time codes with their limits |

Code that computes is modelled by functions, and what it promises by lemmas about them. Code that changes things step by
step is modelled by methods with loops and by classes, each proved equal to such a function of the old state. Protocols are
state machines, and their main results are about every run. Strings are sequences of Unicode characters without surrogates;
bytes are integers below 256; times and positions are reals or integers; tables are maps.

Where code and intent part, the model follows the code:

- Typo narrowing misses matches of every plain word of four or five letters, and of every one of six that keeps no piece
  when its middle two letters are swapped ("summer" and "coffee" keep one); a word of seven letters or more misses none by
  its pieces (`Search.PiecesSurviveExactly`, `Narrowing.FindsAllExactly`). Beside a phone column it also misses a typo that
  leaves no letter (`Narrowing.LetterLost`).
- Phone numbers are checked by their digits but narrowed by `like` on the digits, so separators inside the stored number
  hide it from SQL (`Narrowing.PhoneLost`, `Narrowing.DigitsLost`); a word without letters is looked for in the phone
  column by the check alone (`Narrowing.SignsLost`). Otherwise narrowing by a word is exact
  (`Narrowing.ExactNarrowingExactly`).
- A vCard address part ending in a backslash swallows the next separator, and a WhatsApp number without a phone comes back
  as the phone (`VCard.KeptExactly`). A business exported as a vCard comes back as an individual (`VCard.RoundTrip`).
- A save looks, keeps a version and writes without a lock. What another save wrote after the version was made is lost with
  the write, unless somebody keeps it elsewhere (`Overlaps.SaveLosesExactly`, `Overlaps.OverlapLosesExactly`); uploads that
  look for a free name at the same moment take the same one (`Overlaps.UploadsMeetExactly`).
- Restoring from the bin does not look again whether the name with "(restored)" is taken (`FilesCore.RestoredNameTaken`,
  `FilesCore.RestoreReplacesExactly`).
- Moving something over a folder it lies in bins the source before it is copied; the guard looks only at the other
  direction (`Moves.DeliversExactly`, `Moves.NothingArrives`). Where the destination is both a file and a folder, only the
  file is binned, and files of the folder can be replaced for good (`Moves.NothingReplacedExactly`).
- A client that asks only for changed versions misses an element whose nonce alone is higher (`Drawing.CatchUpExactly`).
- The encryption job looks at the switch only after a hundredth key that it rewrote or failed on: turned back, it goes on
  when the hundredth keys are already right (`EncryptionRuns.StopsExactly`, `EncryptionSwitch.Switcher.Switch`).
- Its condition on the tag is checked when the copy is read. A save landing between that and the storing of the copy would
  be lost, were the storage to let it in (`Encryption.WindowExactly`, `Encryption.SaveLost`).
- A write decided before the encryption switch is turned can land after the job has passed (`EncryptionRuns.LateWriteStays`,
  `EncryptionRuns.SwitchedExactly`), and a read can fail when the file changes its kind between its two tries, by the job or
  by a user's own save (`Encryption.ReadsExactly`, `Encryption.SaveSplitsRead`).
- The check character misses a swap of 0 and Z in general (`Gstin.SwapDetectedExactly`), but never in a GSTIN, whose
  pattern rules that pair out (`Gstin.SwapRefused`).

## Model

| member | source | states |
|---|---|---|
| `OneTypo.DistanceAtMostOne` | qtt_platform/search_logic.py:61-72 | The recursive edit distance with neighbour swaps is at most 1 between two prefixes exactly when one substitution, insertion, deletion or adjacent swap (or nothing) turns one into the other. |
| `OneTypo.DistanceZero` | qtt_platform/search_logic.py:61-72 | The distance is 0 exactly for equal prefixes. |
| `OneTypo.PutCell` | qtt_platform/search_logic.py:66-71 | The inner loop's body: one cell from those above, to the left and across and, for swapped ends, the one before them; no other cell changes. |
| `OneTypo.FillCell` | qtt_platform/search_logic.py:66-71 | So the cell holds the recursive distance when those around it do. |
| `OneTypo.FillEdges` | qtt_platform/search_logic.py:62-65 | The first column and first row hold the distances to the empty word. |
| `OneTypo.FillRow` | qtt_platform/search_logic.py:66-71 | One turn of the outer loop extends the part of the table that equals the recursive distance by one row. |
| `OneTypo.OneTypo` | qtt_platform/search_logic.py:57-72 | True exactly when the first word has four letters or more and one edit makes the second of it; words of the wrong length included. |
| `Search.AnyTypo` | qtt_platform/search_logic.py:85-86 | Finds out whether some word of the row is one edit from the query's word. |
| `Search.Matches` | qtt_platform/search_logic.py:75-88 | The early-exit loop keeps a row exactly when every word of the query lies in the joined fields, or has four digits or more that lie in the fields' digits, or (with typos) is one edit from a word of the fields. |
| `Search.TermsOfWords` | qtt_platform/search_logic.py:26-28 | Words with a space character between any two are the words of the query, the first six of them. |
| `Search.LongestIsFirst` | qtt_platform/search_logic.py:36-39 | The word SQL narrows by is the first of the longest ones. |
| `Search.EditLeavesPiece` | qtt_platform/search_logic.py:46-54 | One edit of a word that does not break its pieces, into a word a row can have, leaves one of its three pieces whole; every word of seven letters or more is such a word. |
| `Search.PiecesSurviveExactly` | qtt_platform/search_logic.py:46-54 | The condition is exact for every word of four letters or more: some one-edit variant that can stand in a row holds none of its pieces, if and only if it has four or five letters, all word characters but at most a middle one, or six word characters that keep no piece when the middle two are swapped. |
| `Search.LostWord` | qtt_platform/search_logic.py:46-54 | For every such word, a one-edit variant of word characters that holds none of its pieces. |
| `Search.RunsInside` | qtt_platform/search_logic.py:80-81 | The words cut out of a text lie in it and consist of word characters. |
| `Search.InOneField` | qtt_platform/search_logic.py:78-79 | A text without spaces found in the fields joined by spaces lies within one field. |
| `SmartList.Refine` | qtt_platform/search_logic.py:116-118 | Keeps exactly the rows that match, before the sort; SmartList.SelectInOrder says in which order. |
| `SmartList.SelectInOrder` | qtt_platform/search_logic.py:118 | The rows kept are those at the places that pass, the places increasing. |
| `SmartList.AddUnseen` | qtt_platform/smart_list.py:52-55 | Adds the rows whose names were not seen, once each, and keeps the set of names in step. |
| `SmartList.AddNewLast` | qtt_platform/smart_list.py:52-55 | Each row comes after those before it, unless its name has come already. |
| `SmartList.Retry` | qtt_platform/smart_list.py:49-55 | The candidates are the rows fetched for each piece in turn, duplicates dropped; the first fetch also takes titles that start with the word's first letter. |
| `SmartList.SmartGetAll` | qtt_platform/smart_list.py:23-58 | Row i of the page is row start + i of the table or, with a query, of the ranked result (exact matches when there are any, otherwise the typo retry, SQL returning up to five times start + length rows); the page is as long as asked for as far as there are rows, and the more-flag says whether there are more. |
| `SmartList.PagesJoin` | qtt_platform/smart_list.py:57 | Pages of one length behind each other are the whole result. |
| `SmartList.FetchedExactly` | qtt_platform/smart_list.py:36-40 | One query, row limits apart, returns exactly the rows in which a search field holds the text, the title starts with the prefix, or the phone holds all the digits typed when those are four or more. |
| `SmartList.FetchedFirst` | qtt_platform/smart_list.py:40 | A row limit cuts off the last rows that fit. |
| `SmartList.CandidatesExactly` | qtt_platform/smart_list.py:46-55 | The retry, row limits apart, looks at exactly the rows in which a search field holds the first three letters, the middle three or the last three of the longest word, the title starts with its first letter, or the phone holds all the digits typed. |
| `SmartList.ExactFits` | qtt_platform/smart_list.py:36-45 | A row that matches exactly fits the SQL filter on the longest word, when that has fewer than four digits and, over a listing with a separate phone column, a letter. |
| `SmartList.TypoHasPiece` | qtt_platform/smart_list.py:46-56 | A row that matches with a typo fits the SQL filter on one of the pieces, when the longest word also keeps a piece, and beside a phone column a letter, through every typo. |
| `SmartList.CandidatesUnion` | qtt_platform/smart_list.py:49-55 | The candidates have distinct names and include every row that fits any piece. |
| `SmartList.ExactNarrowing` | qtt_platform/smart_list.py:32-45 | Checking the rows SQL returned keeps the same rows, in the same order, as checking the whole table, for every such longest word, whatever its length. |
| `SmartList.TypoNarrowing` | qtt_platform/smart_list.py:46-56 | The same for the typo retry, as multisets of rows. |
| `SmartList.NoTypoForShortWords` | qtt_platform/search_logic.py:59-60 | With a longest word under four letters, typos allow nothing that matches exactly would not. |
| `SmartList.NarrowingLosesNothing` | qtt_platform/smart_list.py:32-58 | End to end: the search finds what checking every row would find, exact matches whenever there are any, at any length of the word; typo matches when there are none and the word is too short for typos or keeps a piece through any. |
| `SmartList.RetryLosesNothing` | qtt_platform/smart_list.py:46-56 | When nothing matches exactly, the retry finds every typo match of a table of up to twice the rows the first query may return. |
| `Narrowing.RunInHay` | qtt_platform/search_logic.py:78-81 | A word of one field is a word of the fields joined by spaces. |
| `Narrowing.DigitsNotIn` | qtt_platform/search_logic.py:31-33 | The digits SQL narrows by are those of the whole query, so no other word of it holds them once one has four digits or more. |
| `Narrowing.DigitsLost` | qtt_platform/smart_list.py:36-45 | For every query whose longest word has four digits or more, a row with those digits apart in a search field, and the other words, passes the check and is not fetched. |
| `Narrowing.PhoneLost` | qtt_platform/smart_list.py:36-45 | The same with the digits apart in the phone column. |
| `Narrowing.SignsLost` | qtt_platform/smart_list.py:36-45 | For every query whose longest word has no letter and fewer digits, a row with that word in the phone column, and the other words, passes the check and is not fetched. |
| `Narrowing.ExactNarrowingExactly` | qtt_platform/smart_list.py:32-45 | For every query over every listing with a search field: narrowing keeps every exact match of every table if and only if the longest word has fewer than four digits and, beside a separate phone column, a letter. |
| `Narrowing.TypoLost` | qtt_platform/smart_list.py:46-56 | For every one-edit variant that holds no piece, the row with it passes the check with typos, and neither the word, nor a piece, nor the first letter of the title fetches it. |
| `Narrowing.LetterLost` | qtt_platform/smart_list.py:46-56 | The same for every variant without letters in the phone column. |
| `Narrowing.UnseenIsLost` | qtt_platform/smart_list.py:45-58 | A row that passes and that no query fetches is missing from the result. |
| `Narrowing.FindsAllExactly` | qtt_platform/smart_list.py:32-58 | For every one-word query over every listing with a search field: the search box, exact pass and typo retry, finds on every table what checking every row would find if and only if the word narrows exactly and is too short for typos or keeps a piece, and beside a phone column a letter, through each. |
| `Base64.Utf16RoundTrip` | qtt_platform/mail_rules.py:193-204 | Decoding the UTF-16 of a text, surrogate pairs included, gives the text. |
| `Base64.Utf16Octets` | qtt_platform/mail_rules.py:204 | A character's octets are its number, high octet first, or two surrogates whose lower ten bits make up what its number has more than 65536. |
| `Base64.FromUtf16Exactly` | qtt_platform/mail_rules.py:193 | Octets are read as a text if and only if they are that text's UTF-16. |
| `Base64.RoundTrip` | qtt_platform/mail_rules.py:191-204 | The lenient base64 decoder undoes the unpadded encoding once the padding is put back as the code does. |
| `Base64Bits.LetterByBits` | qtt_platform/mail_rules.py:204 | Letter k of an encoding is the one RFC 4648 numbers by bits 6k to 6k + 5 of the octets, zeros past their end. |
| `Base64Bits.EncodeLength` | qtt_platform/mail_rules.py:204 | There are as many letters as take in all the bits. |
| `Base64Bits.DecodeLenient` | qtt_platform/mail_rules.py:191-193 | Any letters, padding put back, are read as the octets written with these letters, bits that fill no octet apart; one letter too many is an error. |
| `Base64Bits.DecodePassesOver` | qtt_platform/mail_rules.py:193 | A character outside the alphabet is passed over. |
| `Base64Bits.LonePadding` | qtt_platform/mail_rules.py:193 | So is a padding sign alone in the middle of a group. |
| `Base64Bits.PaddingEnds` | qtt_platform/mail_rules.py:193 | Two padding signs after two letters end the data. |
| `MailFolders.FolderEncode` | qtt_platform/mail_rules.py:198-214 | The loop with its pending run writes what the recursive encoding does. |
| `MailFolders.BodyBack` | qtt_platform/mail_rules.py:187-204 | What stands between & and - is printable, has no -, and decodes to its run. |
| `MailFolders.EncodedTokens` | qtt_platform/mail_rules.py:195-214 | The scan for &…- cuts an encoded name exactly at the shifts it was written with. |
| `MailFolders.FolderRoundTrip` | qtt_platform/mail_rules.py:186-214 | Reading an encoded folder name gives the name, for every string. |
| `MailFolders.WrittenForm` | qtt_platform/mail_rules.py:198-215 | What is written, without naming the encoder: printable characters, &- for &, and runs of the others, no two together, each & and - around the letters (comma for 63) of the bits of its UTF-16 octets; in order they stand for the name. |
| `MailFolders.TokensSpell` | qtt_platform/mail_rules.py:195 | The scan cuts any text into shifts without a hyphen inside and single characters that spell it, an & alone being one that no hyphen follows. |
| `MailFolders.BodyMeans` | qtt_platform/mail_rules.py:187-193 | Any letters between & and - stand for the text whose UTF-16 octets are written with them, bits that fill no octet apart; otherwise reading fails. |
| `MailFolders.OnlyAscii` | qtt_platform/mail_rules.py:191-193 | A character between & and - that is not ASCII makes reading fail. |
| `MailFolders.EncodeInjective` | qtt_platform/mail_rules.py:198-214 | No two names are encoded alike. |
| `MailFolders.EncodedCanonical` | qtt_platform/mail_rules.py:198-214 | Section 5.1.3 of RFC 3501: printable ASCII only, no two shifted runs adjacent, and no printable character inside a shift. |
| `Utf8.RoundTrip` | qtt_platform/calendar_rules.py:81-88 | Decoding the UTF-8 of a text gives the text. |
| `Folding.FitIsLongest` | qtt_platform/calendar_rules.py:82-86 | The reference cut is the longest prefix that fits and falls between characters. |
| `Folding.BackOff` | qtt_platform/calendar_rules.py:82-86 | From the 75th octet, backing off over continuation octets stops at the reference cut, at most three octets back, on a first octet. |
| `Folding.FoldPieces` | qtt_platform/calendar_rules.py:80-88 | The loop over octets terminates on every text and cuts it into the reference pieces, each of which decodes. |
| `Folding.Fold` | qtt_platform/calendar_rules.py:80-89 | The pieces joined by line breaks. |
| `Folding.PiecesFit` | qtt_platform/calendar_rules.py:80-89 | Section 3.1 of RFC 5545: no piece over 74 octets; all but the last at least 71; all but the first begin with a space. |
| `Folding.UnfoldFold` | qtt_platform/calendar_rules.py:80-89 | Unfolding a folded line without line breaks gives back that one line. |
| `Folding.UnfoldCalendar` | qtt_platform/calendar_rules.py:128-134 | Unfolding a whole calendar gives back its lines and the empty one after the last break. |
| `Lines.FileUnfolds` | qtt_platform/contacts_rules.py:11-12 | A file of lines, each possibly folded, unfolds to its lines when none holds a break and none but the first begins with a space or tab. |
| `Lines.SoftFileUnfolds` | qtt_platform/contacts_rules.py:11-12 | The same for a file with single line feeds. |
| `Lines.FoldTaken` | qtt_platform/contacts_rules.py:11-12 | A line feed, with a carriage return or without, and a space or tab after it are no break. |
| `Lines.BreakTaken` | qtt_platform/contacts_rules.py:11-12 | Any other line feed ends a line. |
| `Escapes.UnescEsc` | qtt_platform/contacts_rules.py:15-20 | Unescaping reads an escaped value back whatever follows it. |
| `VCardForms.EscExactly` | qtt_platform/contacts_rules.py:19-20 | Text is escaped letter by letter: comma, semicolon, backslash and line break, nothing else. |
| `VCardForms.UnescExactly` | qtt_platform/contacts_rules.py:15-16 | What a backslash makes of each next letter; every other text stands for itself. |
| `VCardForms.TrimExactly` | qtt_platform/contacts_rules.py:50-66 | Stripping takes off all the space at the ends and nothing else. |
| `Escapes.SplitEsc` | qtt_platform/contacts_rules.py:54-65 | The split at unescaped semicolons never cuts an escaped value; a semicolon after a value ending in a backslash is taken for escaped. |
| `VCardForms.SplitExactly` | qtt_platform/contacts_rules.py:54 | The parts with semicolons between them are the value again. |
| `Escapes.ChainSplits` | qtt_platform/contacts_rules.py:54-65 | Escaped parts joined by semicolons split into the same parts when none that is followed by one ends in a backslash. |
| `Escapes.PartsReadExactly` | qtt_platform/contacts_rules.py:65-66 | Trimmed parts are all read back if and only if none of them ends in a backslash. |
| `VCard.ParseVcf` | qtt_platform/contacts_rules.py:23-69 | The line loop with its current card returns what reading the lines one by one gives. |
| `VCard.ToVcf` | qtt_platform/contacts_rules.py:72-93 | The joined text is every line of every card with a line break after it. |
| `VCardForms.CardFrame` | qtt_platform/contacts_rules.py:76-92 | A card's first four lines and its last, as they are written. |
| `VCardForms.CardLinesExactly` | qtt_platform/contacts_rules.py:77-90 | The lines between are exactly those the filled fields ask for, each as it is written. |
| `VCard.ReadProperty` | qtt_platform/contacts_rules.py:46-68 | A line of a property and a value changes the card as that property says, and is never taken for a begin or end line. |
| `VCardForms.PropertyNamed` | qtt_platform/contacts_rules.py:49 | A property's name may have a group before it and parameters after it, in capitals or not. |
| `VCardForms.SentRead` | qtt_platform/contacts_rules.py:31-63 | What a card of others gives, with any of full name, given and family name, organisation, phone and e-mail missing: a row if and only if there is some name and a phone or e-mail; which name it gets, cut at 140 characters, and when it is a business. |
| `VCardForms.TelRead` | qtt_platform/contacts_rules.py:58-61 | A number is noted without tel: before it if and only if it has a digit. |
| `VCardForms.MailRead` | qtt_platform/contacts_rules.py:62-63 | An e-mail is noted in small letters if and only if it has an @. |
| `VCardForms.SmallLetters` | qtt_platform/contacts_rules.py:63 | Only A to Z are made small. |
| `VCardForms.NoteRead` | qtt_platform/contacts_rules.py:67-68 | A note is cut after 2000 characters. |
| `VCardForms.PassedOver` | qtt_platform/contacts_rules.py:28-47 | Nothing is noted of a line outside a card, without a colon, or of space only. |
| `VCardForms.CardOpens` | qtt_platform/contacts_rules.py:30-33 | BEGIN:VCARD in any case opens an empty card, whatever was open. |
| `VCard.AfterCard` | qtt_platform/contacts_rules.py:31-68 | Reading one written card adds one row and leaves no card open, whatever was being read before. |
| `VCard.EndedUnfolds` | qtt_platform/contacts_rules.py:11-12 | The written text unfolds to the written lines. |
| `VCard.WhatComesBack` | qtt_platform/contacts_rules.py:23-93 | Writing rows and reading them gives one row each, in order, with exactly the stated fields. |
| `VCard.NumberExactly` | qtt_platform/contacts_rules.py:58-61 | A phone comes back as it was written if and only if it has a digit and does not begin with "tel:". |
| `VCard.EmailExactly` | qtt_platform/contacts_rules.py:62-63 | An e-mail does if and only if it has an @, no capitals and nothing that looks escaped: it is written unescaped and read unescaping. |
| `VCard.KeptExactly` | qtt_platform/contacts_rules.py:72-93 | A row of writable values comes back the same if and only if WhatsApp stands only beside a different phone and no address part ends in a backslash. |
| `VCard.RoundTrip` | qtt_platform/contacts_rules.py:23-93 | Both together for a whole address book; and every card comes back as an individual, never as a business, because the name line is always written. |
| `Recurrence.NextMonth` | qtt_platform/calendar_rules.py:42-48 | Finds the next month that has the day, skipping only months without it. |
| `Recurrence.NextYear` | qtt_platform/calendar_rules.py:49-56 | The same for years (29 February). |
| `Recurrence.Advance` | qtt_platform/calendar_rules.py:37-58 | The end of a turn: the next existing candidate below the cap, nothing gathered lost in between. |
| `Recurrence.Expand` | qtt_platform/calendar_rules.py:25-59 | The loop returns what is kept of the candidates up to where it stops: the cap, a candidate that may not start any more, or 500 results. |
| `Recurrence.AtIncreases` | qtt_platform/calendar_rules.py:37-56 | Candidates are strictly increasing. |
| `Recurrence.AtInRule` | qtt_platform/calendar_rules.py:96 | Every candidate kept is in the recurrence set (section 3.3.10 of RFC 5545), and below the horizon exactly when its number is below the cap. |
| `Recurrence.RuleIsAt` | qtt_platform/calendar_rules.py:96 | Every moment of the recurrence set is a candidate. |
| `Recurrence.GatherSound` | qtt_platform/calendar_rules.py:28-35 | What is gathered is increasing, wanted, and before every later candidate. |
| `Recurrence.StoppedIsComplete` | qtt_platform/calendar_rules.py:28-36 | Wherever the loop stops, no wanted occurrence is missing, unless 500 earlier ones were found. |
| `Recurrence.Occurrences` | qtt_platform/calendar_rules.py:22-62 | In its own arguments: in increasing order exactly the moments of the recurrence set that are before the end of the window, on the last day or an earlier one, and reach into the window with the event's length; each with its end; all within 5000 days or weeks, 1200 months or 400 years, or the first 500. |
| `Recurrence.WeekdaysAre` | qtt_platform/calendar_rules.py:33 | 1 January 2024 was a Monday, and each day after is the next day of the week, whatever the time. |
| `Dates.NextMonth` | qtt_platform/invoice_billing_rules.py:23-26 | Months follow each other without gap in the day count (Gregorian leap years). |
| `Dates.MonthLengths` | qtt_platform/calendar_rules.py:17-20 | The lengths of the twelve months, 29 days in February of every fourth year but the hundredths that are no four hundredths. |
| `Dates.KnownDate` | qtt_platform/calendar_rules.py:33 | 1 January of the years 1, 1970 and 2024 are days 1, 719163 and 738886. |
| `Dates.OrdinalOrder` | qtt_platform/invoice_billing_rules.py:29-44 | Dates compare as their day numbers do. |
| `Dates.AddMonthsExact` | qtt_platform/invoice_billing_rules.py:23-26 | Moves the month index by exactly n; the day changes only when the month is shorter, then to its last. |
| `Dates.AddMonthsMonotone` | qtt_platform/invoice_billing_rules.py:23-26 | Later dates stay later. |
| `Dates.AddMonthsDays` | qtt_platform/invoice_billing_rules.py:23-26 | n months are at least 28 n days. |
| `Dates.AddMonthsTwice` | qtt_platform/invoice_billing_rules.py:23-26 | a then b months is in the month of a + b and never later, and the same day exactly when the first step did not cut the day below it. |
| `Billing.Ledger.PayOne` | qtt_platform/invoice_billing.py:49-60 | An invoice-billed subscription is paid for one month, or twelve when billed yearly, from today or from where it was paid until; unless cancelled or expired it is active; its period end moves up to that. No other subscription changes. |
| `Billing.Ledger.PayEach` | qtt_platform/invoice_billing.py:53-63 | Every subscription of the invoice, in whatever order the set gives, and no other. |
| `Billing.Ledger.OnInvoicePaid` | qtt_platform/invoice_billing.py:49-63 | A payment has exactly the effect of the state machine's step. |
| `Billing.Ledger.RenewDaily` | qtt_platform/invoice_billing.py:66-88 | Of the subscriptions listed, each once, a running invoice-billed one of others with a price and a paid time is suspended if and only if it was on, has an open invoice and is more than seven days past that time; it gets exactly one new open invoice if and only if it has none, is not cancelling and today is at most three days before that time or later; nothing else changes. |
| `Billing.RenewExactly` | qtt_platform/invoice_billing_rules.py:33-44 | The same of the machine's step: which are suspended, which new invoices there are, and that each due subscription gets one. |
| `Billing.PaySubLater` | qtt_platform/invoice_billing_rules.py:29-32 | A payment puts the paid time at least 28 days after both today and where it was. |
| `Billing.StepValid` | qtt_platform/invoice_billing.py:25-88 | Every step keeps dates valid and invoice numbers below the next one. |
| `Billing.StepKeeps` | qtt_platform/invoice_billing.py:25-88 | No step gives a subscription a second open invoice or moves its paid time back. |
| `Billing.RunKeeps` | qtt_platform/invoice_billing.py:25-88 | The same over every run of new days, renewals, payments, voids and cancellations. |
| `Billing.SuspendedOnlyUnpaid` | qtt_platform/invoice_billing_rules.py:35-44 | A subscription becomes suspended only in a renewal, with an open invoice, more than 7 days after its paid time ended. |
| `Billing.PaymentTurnsOn` | qtt_platform/invoice_billing.py:57-63 | After a payment a running subscription is active, paid at least 28 days ahead, and the renewal rule does nothing with it for the next 24 days. |
| `Encryption.JobChangesNoContent` | qtt_platform/files_crypto.py:57-80 | No step of the job, the storing of a copy included, changes content or metadata of any key, when no user's write or removal fell on the key between the reading and the storing of its copy. |
| `Encryption.CountsExactly` | qtt_platform/files_crypto.py:61-85 | What each step of the job counts: rewritten as changed; gone, already as wanted or saved again meanwhile as skipped; anything else as failed. |
| `Encryption.StepFaithful` | qtt_platform/files_crypto.py:57-80 | Every step of writers and job, but such a crossing, keeps the store equal to what the users' own writes left; it is the condition on the tag that keeps a copy from carrying older metadata. |
| `Encryption.QuietFaithful` | qtt_platform/files_crypto.py:44-97 | The same over every run without a crossing. |
| `Encryption.WindowExactly` | qtt_platform/files_crypto.py:66-76 | Whatever users do between the reading and the storing of a copy, the store stays true if and only if the last of their events on that key, if any, wrote what had been read. |
| `Encryption.SaveLost` | qtt_platform/files_crypto.py:66-76 | A different save landing there is lost: the older file is what is read afterwards. |
| `Encryption.ReadsExactly` | qtt_platform/file_store.py:63-74 | A read whose two tries meet different states, with users and job in between, answers with what users had left at its first or its second try; it fails although the file is there if and only if the file was of the other kind at the first try and of the kind tried first at the second. |
| `Encryption.SaveSplitsRead` | qtt_platform/file_store.py:63-74 | A user's own save landing between the tries makes a read fail so. |
| `Encryption.StepSwitching` | qtt_platform/files_crypto.py:56-95 | Every step keeps: an object not stored the wanted way is still to come, and one that changed since it was looked at was written the wanted way. |
| `Encryption.FinishedMeansSwitched` | qtt_platform/files_crypto.py:44-97 | A run that finishes with nothing failed, the setting staying put and nothing on its way to a file decided before, leaves every object but the markers in the wanted form. |
| `EncryptionRuns.BegunFinishes` | qtt_platform/files_crypto.py:44-97 | A job just begun can finish with nobody else acting, and nothing fails. |
| `EncryptionRuns.LateWriteStays` | qtt_platform/file_store.py:165-181 | For every write or copy on its way to a file that was decided the other way, there is a run that finishes with nothing failed and leaves that very file the other way. |
| `EncryptionRuns.SwitchedExactly` | qtt_platform/files_crypto.py:44-97 | Every run that finishes well leaves every file in the wanted form if and only if no write on its way to a file had been decided the other way when the job began. |
| `EncryptionRuns.StopsExactly` | qtt_platform/files_crypto.py:57-89 | From the moment the switch is turned back, a finishing run is stopped if and only if some hundredth key from then on is rewritten, refused or failed (or the job is just about to look at the switch); keys gone or already right are passed over without a look. |
| `EncryptionRuns.LooksOn` | qtt_platform/files_crypto.py:31-65 | Looking at an object, with its key when it is encrypted, passes it over exactly when it is stored the wanted way. |
| `EncryptionSwitch.Switcher.CopyOnto` | qtt_platform/files_crypto.py:66-75 | The object written onto itself the wanted way, under a new tag and with the metadata seen, only if its tag is the one seen. |
| `EncryptionSwitch.Switcher.Handle` | qtt_platform/files_crypto.py:62-80 | One key: rewritten exactly when it is not stored the wanted way, its content and all other objects unchanged; the steps are the machine's. |
| `EncryptionSwitch.Switcher.CountKey` | qtt_platform/files_crypto.py:57-89 | One file: counted; the run stopped exactly when it was a hundredth file that had to be rewritten and the switch was turned the other way. |
| `EncryptionSwitch.Switcher.TurnKey` | qtt_platform/files_crypto.py:57-89 | One key of a page: a marker passed over, or a file counted. |
| `EncryptionSwitch.Switcher.HandlePage` | qtt_platform/files_crypto.py:57-91 | One page: its files counted in order, up to where the run is stopped. |
| `EncryptionSwitch.Switcher.TurnPage` | qtt_platform/files_crypto.py:51-93 | One page asked for and handled, and the next one's token kept. |
| `EncryptionSwitch.Switcher.Switch` | qtt_platform/files_crypto.py:44-97 | The loop over pages is a run of the state machine's job; contents and metadata stay, the count of changed files is the number of objects now stored another way, nothing fails; it is stopped if and only if the switch is turned back and a hundredth file has to be rewritten, and otherwise every object but the markers ends as wanted. |
| `FilesEngine.Engine.Copy` | qtt_platform/file_store.py:176-181 | One object copied, or nothing when it is not there. |
| `FilesEngine.Engine.CopyTree` | qtt_platform/file_store.py:202-210 | The keys copied one after another in the order they are listed in; the same as copying the tree at once when no copy lands in the tree. |
| `FilesEngine.Engine.Save` | qtt_platform/files_core.py:123-133 | The file written, and the one it replaces kept as a version. |
| `FilesEngine.Engine.RestoreVersion` | qtt_platform/files_core.py:144-150 | The version's content saved over the file, or a refusal. |
| `FilesEngine.Engine.MoveToBin` | qtt_platform/files_core.py:154-163 | The file or tree moved under a bin key with a bin row, or a refusal. |
| `FilesEngine.Engine.RestoreBin` | qtt_platform/files_core.py:166-184 | The item moved back, or beside its old name, and its row dropped, or a refusal. |
| `FilesCore.SaveKeeps` | qtt_platform/files_core.py:123-133 | After a save every reachable content is where stated: the old file under its version key, everything else where it was. |
| `FilesCore.BinFileKeeps` | qtt_platform/files_core.py:154-163 | The same for a file moved to the bin. |
| `FilesCore.BinDirKeeps` | qtt_platform/files_core.py:154-163 | The same for a folder. |
| `FilesCore.RestoreKeeps` | qtt_platform/files_core.py:166-184 | The same for a restore with nothing in its way. |
| `FilesCore.StepKeeps` | qtt_platform/files_core.py:123-184 | Every operation keeps the version and bin rows true and every content that was live, a version or in the bin. |
| `FilesCore.NothingLost` | qtt_platform/files_core.py:123-184 | Over every run of saves, version restores, moves to the bin and restores, one after the other, no content once reachable is lost. |
| `FilesCore.RestoreReplacesExactly` | qtt_platform/files_core.py:166-184 | As many files are stored after a restore as before if and only if the item's name is free or the name beside it is (for a folder: holds none of its files' names). |
| `FilesCore.BesideExactly` | qtt_platform/files_core.py:172-174 | The name beside a taken one: (restored) before the extension at the last dot of a file's name, otherwise at the end. |
| `FilesCore.FreeRestoreKeeps` | qtt_platform/files_core.py:166-184 | Such a restore loses no content. |
| `FilesCore.RestoreTouchesNothingExactly` | qtt_platform/files_core.py:166-184 | A restore leaves every object outside the item as it was if and only if what lies where it writes has the content it writes. |
| `FilesCore.RestoredNameTaken` | qtt_platform/files_core.py:171-174 | With the name and the name with (restored) both taken, the restore overwrites the second, whose content is lost. |
| `FilesCore.BinThenRestoreFile` | qtt_platform/files_core.py:154-184 | Binning a file and restoring it gives back the very same state. |
| `FilesCore.BinThenRestoreFolder` | qtt_platform/files_core.py:154-184 | Binning a folder and restoring it gives back the same objects, plus the folder's marker. |
| `Overlaps.PartsAreSave` | qtt_platform/files_core.py:123-133 | Look, copy and write with nobody in between are the whole save. |
| `Overlaps.StepSound` | qtt_platform/files_core.py:123-184 | Every step of every interleaving of saves, moves to the bin and restores keeps the rows true and the versions of saves under way. |
| `Overlaps.OthersLoseNothing` | qtt_platform/files_core.py:123-184 | No step but a write loses a content. |
| `Overlaps.PutBy` | qtt_platform/files_core.py:123-184 | A new content comes to a key only by a save's write there or out of the bin. |
| `Overlaps.VersionStays` | qtt_platform/files_core.py:123-184 | No step touches a version that is kept. |
| `Overlaps.BecomesReady` | qtt_platform/files_core.py:125-131 | A save's own copy (or its look, when it finds nothing) leaves it with what lies at the key kept. |
| `Overlaps.SaveLosesExactly` | qtt_platform/files_core.py:123-133 | Whatever happens between a save's own copy and its write: the write loses a content if and only if the last change at the key in between put it there, the save writes another, and nobody keeps it elsewhere. |
| `Overlaps.NothingLostUndisturbed` | qtt_platform/files_core.py:123-184 | Over every interleaving in which each write finds at its key what its save has kept, or nothing, no content is lost. |
| `Overlaps.OverlapLosesExactly` | qtt_platform/files_core.py:123-133 | Two saves of one file that both look and copy before either writes, in every state: the second write loses a content if and only if it is the first one's, kept nowhere before, and the second writes another. |
| `Overlaps.UploadsMeetExactly` | qtt_platform/api/files_links.py:379-391 | Two uploads of one name into one folder that look before either writes take the same key, and the second loses the first under the same condition. |
| `Moves.RekeyExactly` | qtt_platform/files_core.py:200-206 | The two updates together rename every row at or under the old key, once, and touch no row that only shares a prefix of the name. |
| `Moves.RenameInjective` | qtt_platform/files_core.py:200-206 | Different keys stay different, and keys elsewhere stay as they are. |
| `Moves.Drive.Clear` | qtt_platform/api/dav.py:347-355 | What lay at the target goes to the bin, and its shares, requests, tags and links end. |
| `Moves.Drive.Shift` | qtt_platform/api/dav.py:360-367 | Objects copied, removed and rows renamed in the code's order. |
| `Moves.Drive.MoveTo` | qtt_platform/api/dav.py:326-374 | The guards and steps of a move, each outcome with its state. |
| `Moves.OutcomeExactly` | qtt_platform/api/dav.py:326-366 | Which outcome a move has, by what is stored at its two names, and that all but the last two leave everything as it was. |
| `Moves.RowsEndExactly` | qtt_platform/files_core.py:209-215 | Which rows end with what a move replaces, by table, and which share links are revoked. |
| `Moves.MoveDelivers` | qtt_platform/api/dav.py:343-367 | Where every object is after a move: those of the source at their new keys and gone from the old ones, the replaced ones in the bin, all others where they were, each with its content; the only exception are files in the folder of a name that is also a file, which have something moved onto them. |
| `Moves.NothingReplacedExactly` | qtt_platform/api/dav.py:347-367 | As many files are stored after a move as before if and only if the destination is not both a file and a folder holding a name the moved folder has too; otherwise that file is replaced and not in the bin. |
| `Moves.RowsFollow` | qtt_platform/files_core.py:200-206 | After a move every row is at its renamed key. |
| `Moves.MoveKeepsRowsAndObjects` | qtt_platform/api/dav.py:360-367 | A row of a moved object points at an object with the same content as before. |
| `Moves.DeliversExactly` | qtt_platform/api/dav.py:345-366 | An object of the source arrives if and only if the source does not lie under the target, or the target is a file too. |
| `Moves.NothingArrives` | qtt_platform/api/dav.py:345-366 | Overwriting a folder the source lies in bins the source first, and nothing arrives at the new keys. |
| `FreeNames.CandidatesDiffer` | qtt_platform/api/files_auto.py:148-152 | Different numbers give different names. |
| `FreeNames.CandidateExactly` | qtt_platform/api/files_links.py:380-385 | The names tried: the name, then (2), (3), … before the extension at its last dot, or at the end. |
| `FreeNames.DecimalReads` | qtt_platform/api/files_links.py:385 | A number is written in digits without a zero first and reads back. |
| `FreeNames.TakenBound` | qtt_platform/api/files_links.py:381-385 | n taken candidates need n stored objects. |
| `FreeNames.Choose` | qtt_platform/api/files_links.py:382-385 | The loop ends within one more try than there are stored objects, on the first candidate that is free (or the file's own key). |
| `FreeNames.Drop` | qtt_platform/api/files_links.py:379-394 | An upload nobody comes in between of is stored under the first candidate that held nothing; every other object is unchanged. |
| `FreeNames.Act` | qtt_platform/api/files_auto.py:145-158 | A moved file nobody comes in between of replaces nothing: it goes to a free key with its content and rows, or stays; no other file changes. |
| `Cards.OrderUnique` | qtt_platform/api/boards.py:287 | Two increasing orders of the same cards are the same order. |
| `Cards.PutKeepsIncreasing` | qtt_platform/planning_rules.py:81-89 | A card put at a position strictly between its neighbours gives the order with it at that place. |
| `Cards.GapsEverywhere` | qtt_platform/planning_rules.py:92-95 | When renumbering is not needed, every gap is at least 1e-6. |
| `Board.NewPositionFits` | qtt_platform/api/boards.py:274-280 | The position computed is positive and strictly between the cards that will be its neighbours. |
| `Board.NewPositionExactly` | qtt_platform/planning_rules.py:81-89 | The position itself: halfway between the neighbours, half the first's at the start, 1024 past the card before at the end. |
| `Board.NamedPosition` | qtt_platform/api/boards.py:275-280 | The same by the cards named, adjacent or not, a name that is no card's counting as none. |
| `Board.MoveRealised` | qtt_platform/api/boards.py:267-291 | A move to adjacent neighbours gives the old order without the card and with it at that place, gaps kept, renumbering included; other cards keep list, archive and done, and off the list everything. |
| `Board.AddRealised` | qtt_platform/api/boards.py:221-228 | A new card comes last in the list asked for, or in the first one when that is not on the board, done as the request says or when that is the done list; the other lists keep their orders and no other card changes. |
| `Board.DeleteRealised` | qtt_platform/api/boards.py:295-304 | A deleted or archived card leaves its list, an archived one stays stored, and no other card changes. |
| `Board.AnyMoveArranges` | qtt_platform/api/boards.py:267-291 | Whatever neighbours a request names, the list the card goes to has one order with proper gaps afterwards: ties are renumbered away. |
| `Board.AnyMoveElsewhere` | qtt_platform/api/boards.py:279-291 | After any request the card is on that list, done exactly when that is the done list; of the list's other cards only positions change, and off it nothing does. |
| `Board.AnyMoveKeepsOthers` | qtt_platform/api/boards.py:267-291 | And every other list keeps its order, without the card if it was there. |
| `Board.RunArranged` | qtt_platform/api/boards.py:191-304 | Over every run of moves, new cards and deletions, whatever the requests, every list has one order with positive positions and gaps of at least 1e-6. |
| `Board.BoardCards.SetPositions` | qtt_platform/api/boards.py:289-290 | The loop numbers the cards 1024, 2048, … in order. |
| `Board.BoardCards.Renumber` | qtt_platform/api/boards.py:287-290 | Renumbers exactly when two neighbours are too close. |
| `Board.RenumberExactly` | qtt_platform/planning_rules.py:92-99 | Positions become 1024, 2048, … if and only if two neighbours are less than 0.000001 apart; otherwise nothing changes. |
| `Board.BoardCards.MoveCard` | qtt_platform/api/boards.py:267-291 | Refused, with nothing changed, exactly when the list is not on the board; otherwise the table is the one the lemmas on moves speak of. |
| `Board.BoardCards.SaveNewCard` | qtt_platform/api/boards.py:215-253 | For any request: the table with the new card in the list asked for or the first. |
| `Drawing.MergeElements` | qtt_platform/planning_rules.py:190-208 | The two loops give the merge: saved order, then new ids in order of arrival, each at the version kept; refused above 20000. |
| `Drawing.PutAllIsNewest` | qtt_platform/planning_rules.py:190-205 | The table holds, for every id seen, an element that was seen, of a version as high as any seen and, at that version, a nonce as high as any. |
| `Drawing.ReplacedByHigher` | qtt_platform/planning_rules.py:203-204 | An element is replaced only by a higher version, or a higher nonce of the same version. |
| `Drawing.SameElementsSameTable` | qtt_platform/planning_rules.py:190-205 | Batches with the same elements, in any order and however often, leave the same table. |
| `Drawing.MergeTable` | qtt_platform/planning_rules.py:190-208 | The result of a merge has unique ids and is that table. |
| `Drawing.MergeNewest` | qtt_platform/planning_rules.py:190-208 | In versions and nonces: for every element saved or incoming with an id, a merge of at most 20000 keeps one of that id at least as high, and nothing that was not saved or incoming. |
| `Drawing.NewIdsInOrder` | qtt_platform/planning_rules.py:196-202 | New ids come in the order of the batch, each where it is first seen. |
| `Drawing.MergeKeepsOrder` | qtt_platform/planning_rules.py:190-208 | Saved elements keep their places; each stays or gives way to a higher version, or a higher nonce of the same. |
| `Drawing.MergeAllFits` | qtt_platform/planning_rules.py:190-208 | Saves are all accepted if and only if the ids seen together are within the limit, whatever their order and grouping. |
| `Drawing.MergesConverge` | qtt_platform/planning_rules.py:190-208 | Any two sequences of batches with the same elements, in any order, grouping or repetition, put onto a drawing within the limit: both are accepted or neither is, and then they give the same element per id, the newest seen. |
| `Drawing.CatchUpExactly` | qtt_platform/planning_rules.py:211-213 | A client that merges only the changes since its versions has what merging everything gives, if and only if no element it has at the same version has a higher nonce on the server. |
| `Drawing.NonceIsMissed` | qtt_platform/planning_rules.py:211-213 | With equal versions and different nonces, nothing is sent and the client stays behind. |
| `Gstin.GstinCheckChar` | qtt_platform/business_rules.py:41-46 | The loop's total gives the check character. |
| `Gstin.CheckMakesUp` | qtt_platform/business_rules.py:41-46 | The check character is the one whose number makes the total up to a multiple of 36. |
| `Gstin.KnownAccepted` | qtt_platform/business_rules.py:49-57 | A GSTIN in use, 27AAPFU0939F1ZV, is accepted. |
| `Gstin.OneChangeDetected` | qtt_platform/business_rules.py:41-46 | Changing any one character, at any length, changes the check character. |
| `Gstin.SwapDetectedExactly` | qtt_platform/business_rules.py:41-46 | Swapping two different neighbours changes it if and only if they are not 0 and Z. |
| `Gstin.OneMistakeRefused` | qtt_platform/business_rules.py:49-57 | An accepted GSTIN with any one character replaced is refused. |
| `Gstin.SwapRefused` | qtt_platform/business_rules.py:49-57 | An accepted GSTIN with any two different neighbours swapped is refused: the pattern excludes the pair the check character misses. |
| `Otp.CountedAreTheHour` | qtt_platform/otp_logic.py:80-89 | The sends counted from the stored record are those of the last hour of the whole history, though older ones were dropped. |
| `Otp.StepTimes` | qtt_platform/api/verify.py:70-113 | Every call keeps the sends spaced and the record true to the last hour of them. |
| `Otp.StepTries` | qtt_platform/api/verify.py:95-113 | Every call keeps, per code, at most five wrong tries and one right one, counted by the record. |
| `Otp.RunKeeps` | qtt_platform/api/verify.py:70-113 | The same over every run with a clock that does not go back, forgotten records included. |
| `Otp.SendLimits` | qtt_platform/otp_logic.py:80-101 | Over every run: sends a minute apart, at most five in any hour, at most five wrong tries and one success per code. |
| `Otp.SentExactly` | qtt_platform/otp_logic.py:80-101 | Over every run: a code is sent if and only if the last one was sent at least a minute ago and fewer than five were in the last hour. |
| `Otp.AcceptedExactly` | qtt_platform/otp_logic.py:104-120 | Over every run: a try is accepted if and only if a code was sent in the last ten minutes, is not used and had fewer than five wrong tries, and what is typed has six characters and its digest; it counts as wrong if and only if there is such a code and it does not match. |
| `Otp.ToldExactly` | qtt_platform/otp_logic.py:84-116 | The seconds to wait, rounded up, and the tries left that a refusal tells. |
| `Otp.OnlyTheLastCodeWorks` | qtt_platform/otp_logic.py:104-120 | Over every run: what is accepted matches the last code sent, within ten minutes of it and before the next. |
| `Otp.ThirtyGuessesAnHour` | qtt_platform/otp_logic.py:80-120 | Over every run: at most thirty wrong guesses in any hour, five for each code sent in it and five for the one it began with. |

## Left out

- SmartList.NarrowingLosesNothing: holds for row limits not reached, and takes a phone column that is not itself searched to hold no letters. Its conditions on the longest word are exact for one-word queries (Narrowing.FindsAllExactly) and, as far as exact matches go, for all (Narrowing.ExactNarrowingExactly); with more words a row can be fetched for a piece that another word of it holds.
- SmartList.SmartGetAll: the ranking score is any reordering of the rows; SQL's wildcards % and _ inside a word, its collation and its row order are not modelled.
- Search.Matches: text is taken as already lower-cased, and which characters are letters, digits and white space is a parameter, of which a to z are taken to be letters.
- VCard.RoundTrip: asks for values without spaces at their ends and without carriage returns, a name of 1 to 140 characters, notes of up to 2000, phones as in VCard.NumberExactly and e-mails as in VCard.EmailExactly; these are per value and can be checked before writing. None and the empty string are one value.
- VCard.ParseVcf: upper and lower case and digits are those of ASCII.
- Recurrence.Occurrences: dates without the year limits of Python, without time zones; `weekdays` is the set of Mondays to Fridays from the start on, so a start on a weekend, which section 3.3.10 of RFC 5545 would count, is skipped as the code skips it. Unknown repeat words, which end the loop, are not modelled.
- Folding.UnfoldCalendar: asks that no line holds a line break and none but the first begins with a space or tab; the escaping of calendar texts (calendar_rules.py:76-77) is not modelled.
- Billing.RunKeeps: calls come one after another; an invoice is created in one step, naming one subscription; errors that roll one renewal back are not modelled, nor the currency and audit records. Prices are reals.
- Billing.Ledger.RenewDaily: says what changes for a list that names each subscription once, as the query's does; for any other it is the machine's step.
- Billing.PaymentTurnsOn: is about running subscriptions; a payment leaves a cancelled or expired one in its status, as the code does.
- Encryption.FinishedMeansSwitched: the files key and its fingerprint stay the same; errors other than a missing or changed object, which the code counts as failed, are not modelled.
- EncryptionSwitch.Switcher.Switch: the loop runs with nobody else at the store, and the storage's pages are given to it; interleaved with writers, the job is the machine of Encryption. Status texts and the error log are not modelled.
- Encryption.ReadsExactly: takes no user event to fall on a key between the reading and the storing of its copy (Encryption.WindowExactly says what happens then). A user's own copy of a file reads and stores at one moment, and how a request is split between the retries of the client library is not modelled.
- FilesCore.NothingLost: the calls come one after another; overlapping saves are in Overlaps. The runs restore only items with nothing in their way, or nothing but the same content; FilesCore.RestoreReplacesExactly and FilesCore.FreeRestoreKeeps say when that is so. Removing bin items for good (files_core.py:187-192) and the 30-day clean-up are not steps of it. Random ids are fresh.
- FilesCore.RestoreTouchesNothingExactly: its condition compares contents at the keys written; the one on names is FilesCore.RestoreReplacesExactly.
- Overlaps.SaveLosesExactly: a move to the bin and a restore from it are single steps of these runs, restores having nothing in their way; a version is copied and its row seen by others in one step.
- FilesCore.BinThenRestoreFolder: takes the folder's name not to be a file's name too.
- Moves.Drive.MoveTo: one call at a time. The copying variant without removal, access rights and quotas are not modelled, and keys are shorter than the 700 characters the rows hold.
- Moves.DeliversExactly: leaves out a folder moved over a name that is both a file and the folder it lies in; there copies can land on their own sources, and what is left is what Moves.Drive.MoveTo states by the order of the listing.
- FreeNames.Drop: the look for a free name and the write are one moment here; overlapping uploads are in Overlaps.UploadsMeetExactly. The checks before it (link state, size, quota) are taken as passed; the rules run on the new file afterwards are FreeNames.Act.
- FreeNames.Act: the look for a free name and the copy are one moment; tags, shares and notifications of the rule are not modelled.
- Board.MoveRealised: asks that the named neighbours are adjacent where the card goes; for any other request Board.BoardCards.MoveCard states what the code does and Board.AnyMoveArranges what that keeps. Positions are reals, so rounding is not modelled; equal positions, which the SQL order leaves open, are sorted in the order of the table. Saving a board without one of its lists, which puts that list's cards into the first list as they are (api/boards.py:175) and can create ties there, is not a step of Board.RunArranged.
- Board.RunArranged: calls come one after another; two moves that read the same positions before either writes are not modelled.
- Drawing.MergesConverge: each save reads, merges and stores the drawing in one moment.
- Board.BoardCards.SaveNewCard: only a card's list, position, archive and done are modelled.
- Otp.RunKeeps: calls for one target come one after another, and a stored record is forgotten no sooner than an hour after its last change. Digests are any function; that two different codes may share a digest shows in Otp.OnlyTheLastCodeWorks. Delivery and the tokens issued afterwards are not modelled.
- Gstin.OneMistakeRefused: state codes are a parameter; digits are those of ASCII.
- The purge of old versions, search indexing, activity logs, permissions, e-mails and push messages are not modelled.
- MIME parsing and HTML cleaning in mail_rules.py rest on library behaviour and are not modelled.
- Small rule modules made of single branches (abilities_rules.py, list_sort.py, launch_rules.py, home_cards.py and the like) would add only easy members.
