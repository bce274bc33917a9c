# Bank ledger model

A Dafny model of the core of a small banking application. Bank accounts hold an
id, a password, a kind (personal or business) and a balance. An account can take
deposits and withdrawals, transfer money to another account and pay for a mobile
top-up. The bank keeps every account in a dictionary keyed by account id and
mirrors that dictionary in a text file, one `id,password,type,balance` line per
account. It reads the file when it opens and rewrites it after creating or
deleting an account. Customers log in with an id and a password.

Modules:

- `Results`: `Option` and `Result`. An operation that raises an exception in the
  application returns `Failure` here.
- `Text`: the string operations the file format rests on.
  - `str.split` (`Split`) and `str.join` (`Join`).
  - `for line in file` (`Lines`) and `str.strip` (`Strip`).
  - Decimal digit strings: `NatText` and `IntText` are `str(n)`; `DigitsValue` is `int(s)`.
- `OrderedDict`: a Python dictionary keyed by strings. It is a key sequence in
  insertion order plus a map, with `Put` (`d[k] = v`) and `Remove` (`del d[k]`).
- `Ledger`: the `Account` class with its four operations, the `Kind` tag that
  stands for the two account subclasses, and the two exception classes as
  `BankError`.
- `Records`: the text format of one line and of the whole file. It has the parser
  that loading applies and the writer that saving applies, with their round trips.
- `Registry`: the `BankSystem` class. The accounts dictionary and the file text
  are its fields. It has `Open` (the constructor and `load_accounts`),
  `SaveAccounts`, `CreateAccount`, `Login` and `DeleteAccount`.
- `Scenarios`: the application's unit tests. Each is a method whose
  postcondition is what the test asserts.

The accounts file is the field `file: Option<string>`. `None` means no file exists.
The text is split into lines on `'\n'` only. Balances and amounts are whole
numbers. A balance is written as Python writes a whole float, with a trailing
`.0`.

Two behaviours of the code worth knowing:

- Creating an account does not check whether the drawn id is already in use. An
  account already filed under that id is replaced (`CreateAccount`'s
  `accounts == old(accounts).Put(acc.id, acc)`).
- A failed login raises `InvalidInputError`, not a separate authentication error.
  The same message is used for an unknown id and for a wrong password.

Loading does not check balances. A file can therefore bring in a negative
balance. The non-negativity guarantees of the account operations are stated for
accounts whose balance was not negative to begin with.

## Model

| member | source | states |
|---|---|---|
| Ledger.Account.constructor | DipenSubba_02240309_A3/DipenSubba_02240309_A3_PA.py:14-18 | a new account holds exactly the given id, password, kind and balance |
| Ledger.Account.Deposit | DipenSubba_02240309_A3/DipenSubba_02240309_A3_PA.py:20-24 | succeeds iff the amount is positive. On success it adds exactly the amount and answers "Deposit successful.". Otherwise it raises InvalidInputError("Deposit amount must be positive.") and the balance stays. A non-negative balance stays non-negative |
| Ledger.Account.Withdraw | DipenSubba_02240309_A3/DipenSubba_02240309_A3_PA.py:26-30 | succeeds iff 0 < amount <= balance, and then takes exactly the amount. A non-positive amount and an overdraft give the same InvalidInputError and leave the balance. A non-negative balance stays non-negative |
| Ledger.Account.Transfer | DipenSubba_02240309_A3/DipenSubba_02240309_A3_PA.py:32-37 | a recipient that is not an account raises TransferError("Recipient account is invalid.") before anything changes. Otherwise it succeeds iff 0 < amount <= sender balance. On success the sender loses and the recipient gains exactly the amount. A refused withdrawal passes its InvalidInputError on and credits nothing. The pair's total is conserved, and a transfer to oneself nets zero |
| Ledger.Account.TopUpMobile | DipenSubba_02240309_A3/DipenSubba_02240309_A3_PA.py:39-45 | a phone number that is not exactly 8 decimal digits is refused whatever the amount. Then it succeeds iff 0 < amount <= balance. On success it debits exactly the amount and answers "Mobile top-up of {amount} to {phone} successful.". Every refusal leaves the balance |
| Ledger.TopUpMessageOpening | DipenSubba_02240309_A3/DipenSubba_02240309_A3_PA.py:45 | every top-up confirmation begins with "Mobile top-up" |
| Ledger.IsValidPhone | DipenSubba_02240309_A3/DipenSubba_02240309_A3_PA.py:40 | a phone number is accepted iff it is exactly eight decimal digits; TopUpMobile's contract states the refusal of every other number |
| Ledger.KindOf | DipenSubba_02240309_A3/DipenSubba_02240309_A3_PA.py:68-71 | a type name gives a personal account iff it is exactly "Personal"; any other name gives a business account |
| Ledger.KindRoundTrip | DipenSubba_02240309_A3/DipenSubba_02240309_A3_PA.py:47-53 | the type tag each subclass stores reads back as the same kind |
| OrderedDict.Without | DipenSubba_02240309_A3/DipenSubba_02240309_A3_PA.py:101 | removing a key keeps every other key and nothing else, without duplicates, and shortens a duplicate-free key list by one when the key was present |
| OrderedDict.WithoutCut | DipenSubba_02240309_A3/DipenSubba_02240309_A3_PA.py:101 | in a duplicate-free key list, removing a key cuts out exactly its one position, so the remaining keys keep their order |
| OrderedDict.Dict.Put | DipenSubba_02240309_A3/DipenSubba_02240309_A3_PA.py:72 | after `d[k] = v`, k maps to v and every other key keeps its entry. A new key goes last in iteration order; an existing key keeps its place |
| OrderedDict.Dict.Remove | DipenSubba_02240309_A3/DipenSubba_02240309_A3_PA.py:101 | after `del d[k]`, k is gone and every other key keeps its entry; the key order is the old one with k's position cut out, so iteration visits the remaining keys in their old order. Removing an absent key is a no-op here, where Python's `del` raises KeyError; the ledger never reaches that case, because delete_account checks membership first (line 100) |
| OrderedDict.PutTwice | DipenSubba_02240309_A3/DipenSubba_02240309_A3_PA.py:72 | filing two values under one key keeps the key once, with the second value |
| Text.IndexOf | DipenSubba_02240309_A3/DipenSubba_02240309_A3_PA.py:66 | the result is the first position of the character, or the length when the character does not occur |
| Text.Split | DipenSubba_02240309_A3/DipenSubba_02240309_A3_PA.py:66 | `split(",")` gives at least one piece, no piece holds the separator, and the first piece is a prefix of the text |
| Text.SplitAvoids | DipenSubba_02240309_A3/DipenSubba_02240309_A3_PA.py:66 | a character absent from the text is absent from every piece |
| Text.JoinSplit | DipenSubba_02240309_A3/DipenSubba_02240309_A3_PA.py:66 | joining the pieces of a split with the separator restores the text |
| Text.SplitJoin | DipenSubba_02240309_A3/DipenSubba_02240309_A3_PA.py:66 | splitting a join of separator-free pieces gives back exactly those pieces |
| Text.Lines | DipenSubba_02240309_A3/DipenSubba_02240309_A3_PA.py:65 | iterating a file yields non-empty lines, each with a newline at most at its end, and every line but the last ends in one, so text after the last newline is one final line |
| Text.ConcatLines | DipenSubba_02240309_A3/DipenSubba_02240309_A3_PA.py:65 | the lines put back together are the whole file text |
| Text.LinesCons | DipenSubba_02240309_A3/DipenSubba_02240309_A3_PA.py:65 | a newline-terminated line at the front of a file is yielded on its own, followed by the lines of the rest |
| Text.Strip | DipenSubba_02240309_A3/DipenSubba_02240309_A3_PA.py:66 | `strip()` gives text no longer than the line that neither starts nor ends with whitespace, in Python's sense of whitespace: the ASCII blanks and line ends, U+001C to U+001F and the Unicode spaces and separators |
| Text.StripMiddle | DipenSubba_02240309_A3/DipenSubba_02240309_A3_PA.py:66 | what `strip()` keeps is one unbroken stretch of the line's own text, everything in front of it and behind it is whitespace, and it is empty exactly when the line is all whitespace |
| Text.TrimStart | DipenSubba_02240309_A3/DipenSubba_02240309_A3_PA.py:66 | the result is the suffix after the leading whitespace: everything removed is whitespace and what is left does not start with whitespace |
| Text.TrimEnd | DipenSubba_02240309_A3/DipenSubba_02240309_A3_PA.py:66 | the result is the prefix before the trailing whitespace: everything removed is whitespace and what is left does not end with whitespace |
| Text.StripLine | DipenSubba_02240309_A3/DipenSubba_02240309_A3_PA.py:66 | stripping a line whose text neither starts nor ends with whitespace removes only the newline |
| Text.StripOfLine | DipenSubba_02240309_A3/DipenSubba_02240309_A3_PA.py:66 | a stripped line holds no newline and does not start with whitespace |
| Text.NatText | DipenSubba_02240309_A3/DipenSubba_02240309_A3_PA.py:83 | `str(n)` is a non-empty string of decimal digits without a leading zero |
| Text.NatTextValue | DipenSubba_02240309_A3/DipenSubba_02240309_A3_PA.py:83 | reading back the digits `str(n)` writes gives n |
| Text.NatTextWidth | DipenSubba_02240309_A3/DipenSubba_02240309_A3_PA.py:83 | a number of k decimal digits is written with exactly k characters |
| Records.ParseBalance | DipenSubba_02240309_A3/DipenSubba_02240309_A3_PA.py:67 | `float()` on a balance field reads only text that starts with a sign or a digit; unless the text starts with '-' the result is not negative, and with '-' it is not positive; BalanceRoundTrip is its inverse |
| Records.BalanceRoundTrip | DipenSubba_02240309_A3/DipenSubba_02240309_A3_PA.py:67 | `float()` of the balance text that saving writes gives back the balance |
| Records.FormatLine | DipenSubba_02240309_A3/DipenSubba_02240309_A3_PA.py:80 | the line written for an account ends in a newline, and for a well-formed record (id and password without comma or newline, id not starting with whitespace) it is one line, with no other newline; with ParseFormat, ParseLine reads it back |
| Records.FormatLineText | DipenSubba_02240309_A3/DipenSubba_02240309_A3_PA.py:80 | an account's line is id, password, type and balance, separated by commas and followed by a newline |
| Records.ParseLine | DipenSubba_02240309_A3/DipenSubba_02240309_A3_PA.py:66-71 | a line is read iff its stripped text splits on commas into exactly four fields and the fourth is a number; any other field count is refused as such, and a read line gives the four fields as id, password, kind and balance, so the id and password hold no comma and the id does not start with whitespace; a refusal is either a field count other than four or a balance field `float()` cannot read; ParseFormat is its inverse |
| Records.ParseFormat | DipenSubba_02240309_A3/DipenSubba_02240309_A3_PA.py:66-72 | the line written for a record whose id and password hold no comma or newline, and whose id does not start with whitespace, reads back as the same record |
| Records.UnknownTypeIsBusiness | DipenSubba_02240309_A3/DipenSubba_02240309_A3_PA.py:68-71 | a line whose type field is anything but "Personal" reads as a business account |
| Records.BlankLineRejected | DipenSubba_02240309_A3/DipenSubba_02240309_A3_PA.py:66 | a line of nothing but whitespace has one field and cannot be read |
| Records.ParsedWellFormed | DipenSubba_02240309_A3/DipenSubba_02240309_A3_PA.py:66 | a record read from a line has an id and password free of commas and newlines, and an id that does not start with whitespace |
| Records.ParseLinesFrom | DipenSubba_02240309_A3/DipenSubba_02240309_A3_PA.py:65-72 | one loading step: an unreadable line ends the load with its error; otherwise its record is filed under its id and the remaining lines are read |
| Records.ParseLines | DipenSubba_02240309_A3/DipenSubba_02240309_A3_PA.py:65-72 | reading lines into a dictionary keeps it valid, and the accounts already in it keep their places at the front of the key order, later ones going after them |
| Records.ParseFile | DipenSubba_02240309_A3/DipenSubba_02240309_A3_PA.py:61-75 | an empty file loads as no accounts, and every file that loads gives a dictionary in which each record is filed under its own id and would survive another save and load |
| Records.Serialise | DipenSubba_02240309_A3/DipenSubba_02240309_A3_PA.py:77-80 | saving writes nothing exactly when there are no accounts, and otherwise text ending in a newline; SaveLoadRoundTrip makes ParseFile its inverse |
| Records.ParseLinesAppend | DipenSubba_02240309_A3/DipenSubba_02240309_A3_PA.py:65-72 | reading two runs of lines one after the other is reading the first and then the second into what the first gave, unless the first failed |
| Records.ParseLinesSnoc | DipenSubba_02240309_A3/DipenSubba_02240309_A3_PA.py:65-72 | one more line at the end of a file: the load fails as before, or fails on that line, or files that line's record last |
| Records.SaveLoadRoundTrip | DipenSubba_02240309_A3/DipenSubba_02240309_A3_PA.py:77-80 | loading the text that saving writes gives back the same dictionary, order included |
| Records.LaterLineWins | DipenSubba_02240309_A3/DipenSubba_02240309_A3_PA.py:72 | in any file that loads, wherever the lines stand, a line's record is the one filed under its id unless a later line carries the same id |
| Records.SameIdTwice | DipenSubba_02240309_A3/DipenSubba_02240309_A3_PA.py:72 | a file of two lines for the same id loads as one account, the second line's |
| Registry.DrawnText | DipenSubba_02240309_A3/DipenSubba_02240309_A3_PA.py:83-84 | a drawn id is written with five digits and a drawn password with four; both read back as the drawn numbers and can be stored |
| Registry.Loaded | DipenSubba_02240309_A3/DipenSubba_02240309_A3_PA.py:61-75 | a missing file loads as no accounts (the swallowed FileNotFoundError), and whatever loads files each account under its own id |
| Registry.LoadAccounts | DipenSubba_02240309_A3/DipenSubba_02240309_A3_PA.py:61-75 | the line-by-line loop builds fresh accounts whose records are exactly what reading the file gives, in file order. It stops with the error of the first unreadable line. A missing file gives no accounts |
| Registry.WriteLines | DipenSubba_02240309_A3/DipenSubba_02240309_A3_PA.py:77-80 | the loop over the accounts writes exactly the text of their records' lines, in dictionary order |
| Registry.BankSystem.Open | DipenSubba_02240309_A3/DipenSubba_02240309_A3_PA.py:57-59 | opening fails iff loading the stored file fails. Otherwise the new bank holds the loaded accounts and the file it was opened on, and its registry invariant holds |
| Registry.BankSystem.SaveAccounts | DipenSubba_02240309_A3/DipenSubba_02240309_A3_PA.py:77-80 | the file becomes the serialisation of the current accounts; nothing else changes |
| Registry.ReopenSaved | DipenSubba_02240309_A3/DipenSubba_02240309_A3_PA.py:77-80 | opening a bank again on the file it saved gives back the saved accounts, in order |
| Registry.BankSystem.CreateAccount | DipenSubba_02240309_A3/DipenSubba_02240309_A3_PA.py:82-91 | the new account has the drawn id (5 digits) and password (4 digits), balance 0, and is personal iff the requested type is "Personal". It is filed under its id, replacing any account there, and no other entry changes. The file is rewritten, login with the new credentials returns it, and the invariant is kept |
| Registry.BankSystem.Login | DipenSubba_02240309_A3/DipenSubba_02240309_A3_PA.py:93-97 | succeeds iff the id is filed and its password matches exactly, and then returns that account. Every refusal is the same InvalidInputError("Invalid account ID or password") |
| Registry.LoginReturnsOwner | DipenSubba_02240309_A3/DipenSubba_02240309_A3_PA.py:93-97 | the account a login returns has the id and password that were given |
| Registry.BankSystem.DeleteAccount | DipenSubba_02240309_A3/DipenSubba_02240309_A3_PA.py:99-102 | a filed id is removed and the file rewritten; every other entry stays. An id not filed changes neither the accounts nor the file. Afterwards no password logs in under that id, and the invariant is kept |
| Scenarios.Fixtures | DipenSubba_02240309_A3/DipenSubba_02240309_A3_PB.py:13-19 | the two test accounts: personal 10001/1234 with 500 and business 20001/4321 with 1000 |
| Scenarios.DepositNegative | DipenSubba_02240309_A3/DipenSubba_02240309_A3_PB.py:23-28 | depositing -100 raises InvalidInputError and the balance stays 500 |
| Scenarios.WithdrawExcessive | DipenSubba_02240309_A3/DipenSubba_02240309_A3_PB.py:30-35 | withdrawing 1000 from 500 raises InvalidInputError |
| Scenarios.TopUpInvalidNumber | DipenSubba_02240309_A3/DipenSubba_02240309_A3_PB.py:37-42 | topping up the five-digit number "12345" raises InvalidInputError |
| Scenarios.TopUpInsufficientBalance | DipenSubba_02240309_A3/DipenSubba_02240309_A3_PB.py:44-49 | topping up 9999 from 500 raises InvalidInputError |
| Scenarios.TransferInvalidAccount | DipenSubba_02240309_A3/DipenSubba_02240309_A3_PB.py:53-58 | transferring to a string raises TransferError |
| Scenarios.TransferInsufficientBalance | DipenSubba_02240309_A3/DipenSubba_02240309_A3_PB.py:60-65 | transferring 1000 from 500 raises InvalidInputError and neither balance changes |
| Scenarios.ValidDeposit | DipenSubba_02240309_A3/DipenSubba_02240309_A3_PB.py:69-75 | depositing 200 into 500 gives 700 and "Deposit successful." |
| Scenarios.ValidWithdraw | DipenSubba_02240309_A3/DipenSubba_02240309_A3_PB.py:77-83 | withdrawing 100 from 500 gives 400 and "Withdrawal successful." |
| Scenarios.ValidTransfer | DipenSubba_02240309_A3/DipenSubba_02240309_A3_PB.py:85-91 | transferring 200 leaves 300 and 1200 |
| Scenarios.ValidTopUp | DipenSubba_02240309_A3/DipenSubba_02240309_A3_PB.py:93-99 | topping up 100 leaves 400, and the message contains "Mobile top-up" |
| Scenarios.AccountCreation | DipenSubba_02240309_A3/DipenSubba_02240309_A3_PB.py:103-109 | whatever file the bank opens on, a created account is filed under its id |
| Scenarios.LoginInvalid | DipenSubba_02240309_A3/DipenSubba_02240309_A3_PB.py:111-117 | logging in as "error id"/"no pass" raises InvalidInputError unless the opened file holds exactly that account |

## Left out

- The Tkinter interface (`BankGUI`, `LoginWindow` and the entry point, PA.py:104-234) is not modelled. It only reads entry fields, calls the operations above and shows their messages. Its recipient lookup and its two-decimal display formatting are part of it.
- File input and output: the file is the text in `BankSystem.file`. A missing file is `None`, which stands for the `FileNotFoundError` that loading swallows. Other operating-system errors, partial writes and the file name are not modelled.
- `random.randint` is replaced by the `idNumber` and `passNumber` parameters of `CreateAccount`, with their ranges as preconditions.
- Floating point: balances and amounts are whole numbers.
  - `float()` is modelled only for an optional sign, digits and an optional point followed by zeros. Fractions, exponents, `inf`/`nan`, underscores and surrounding whitespace in the balance field are not modelled.
  - Writing a balance is modelled as `str()` of a whole float, i.e. the digits followed by `.0`. The exponent form Python uses from 1e16 upwards is not modelled.
  - The interface passes amounts as floats, so its top-up confirmations read e.g. "50.0". The model writes the whole number, as the unit tests do.
- Python text mode's universal newlines (a lone `'\r'` also ending a line) are not modelled; lines end at `'\n'`.
- Ledger.IsValidPhone: accepts ASCII digits only, whereas `str.isdigit` also accepts the digits of other scripts and superscript digits.
- The message text of the `ValueError` that an unreadable line raises out of the constructor is not modelled. `BankSystem.Open` returns a `LoadError` telling which check failed: the field count or the balance.
- Registry.BankSystem.Open: takes the stored file text rather than a file name.
