/**
 * The bank: every account filed under its id, in the order the accounts were
 * first filed, and the accounts file the bank reads when it opens and rewrites
 * after each change.
 */
module Registry {
  import opened Results
  import opened Text
  import opened OrderedDict
  import opened Ledger
  import opened Records

  const LoginRefused := "Invalid account ID or password"

  /** What the accounts file holds about an account right now. */
  function RecordOf(a: Account): (r: Record)
    reads a
    ensures r.id == a.id && r.password == a.password && r.kind == a.kind && r.balance == a.balance
  {
    Record(a.id, a.password, a.kind, a.balance)
  }

  /** The records saving would write for the accounts of `d`, in the same order. */
  function SnapshotOf(d: Dict<Account>): (r: Dict<Record>)
    reads d.entries.Values
    ensures r.keys == d.keys && r.entries.Keys == d.entries.Keys
    ensures forall k :: k in d.entries ==> r.entries[k] == RecordOf(d.entries[k])
    ensures d.Valid() ==> r.Valid()
  {
    Dict(d.keys, map k | k in d.entries :: RecordOf(d.entries[k]))
  }

  /** Every account is filed under its own id, and its id and password survive a save and a load. */
  ghost predicate Registered(d: Dict<Account>) {
    && d.Valid()
    && forall k :: k in d.entries ==> d.entries[k].id == k && Storable(k, d.entries[k].password)
  }

  /** What opening the bank on the stored file yields: no file is no accounts. */
  function Loaded(stored: Option<string>): (r: Result<Dict<Record>, LoadError>)
    ensures stored.None? ==> r == Success(Empty())
    ensures r.Success? ==> Consistent(r.value)
  {
    match stored
    case None => Success(Empty())
    case Some(text) => ParseFile(text)
  }

  lemma SnapshotConsistent(d: Dict<Account>)
    requires Registered(d)
    ensures Consistent(SnapshotOf(d))
  {
  }

  /** `r` holds, key for key and in the same order, the records of the accounts of `d`. */
  ghost predicate Mirrors(d: Dict<Account>, r: Dict<Record>)
    reads d.entries.Values
  {
    && r.keys == d.keys
    && r.entries.Keys == d.entries.Keys
    && forall k :: k in d.entries ==> r.entries[k] == RecordOf(d.entries[k])
  }

  lemma MirrorsPut(d: Dict<Account>, r: Dict<Record>, k: string, a: Account)
    requires d.Valid() && r.Valid() && Mirrors(d, r)
    ensures Mirrors(d.Put(k, a), r.Put(k, RecordOf(a)))
  {
    PutSameKeys(d, r, k, a, RecordOf(a));
  }

  /** The records mirroring a dictionary of accounts are its snapshot. */
  lemma MirrorsSnapshot(d: Dict<Account>, r: Dict<Record>)
    requires Mirrors(d, r)
    ensures r == SnapshotOf(d)
  {
    assert r.entries == SnapshotOf(d).entries;
  }

  lemma RegisteredPut(d: Dict<Account>, a: Account)
    requires Registered(d) && Storable(a.id, a.password)
    ensures Registered(d.Put(a.id, a))
  {
  }

  lemma RegisteredRemove(d: Dict<Account>, k: string)
    requires Registered(d)
    ensures Registered(d.Remove(k))
  {
  }

  /** The decimal texts of a drawn id and password: five and four digits, which read back as the numbers and can be stored. */
  lemma DrawnText(idNumber: nat, passNumber: nat)
    requires 10000 <= idNumber <= 99999 && 1000 <= passNumber <= 9999
    ensures |NatText(idNumber)| == 5 && DigitsValue(NatText(idNumber)) == idNumber
    ensures |NatText(passNumber)| == 4 && DigitsValue(NatText(passNumber)) == passNumber
    ensures Storable(NatText(idNumber), NatText(passNumber))
  {
    assert Pow10(3) == 1000 && Pow10(4) == 10000 && Pow10(5) == 100000 by {
      assert Pow10(1) == 10 && Pow10(2) == 100;
    }
    NatTextWidth(idNumber, 5);
    NatTextWidth(passNumber, 4);
    NatTextValue(idNumber);
    NatTextValue(passNumber);
    DigitsStorable(NatText(idNumber), NatText(passNumber));
  }

  /** An id or password made of decimal digits can be stored. */
  lemma DigitsStorable(id: string, password: string)
    requires AllDigits(id) && AllDigits(password) && id != []
    ensures Storable(id, password)
  {
    assert IsDigit(id[0]);
    forall s | s == id || s == password
      ensures ',' !in s && '\n' !in s
    {
      forall i | 0 <= i < |s| ensures s[i] != ',' && s[i] != '\n' {
        assert IsDigit(s[i]);
      }
    }
  }

  /**
   * Reads the stored file line by line into fresh accounts. The first line that
   * does not have four fields or a numeric balance stops the load with its error.
   */
  method LoadAccounts(stored: Option<string>) returns (r: Result<Dict<Account>, LoadError>)
    ensures r.Success? ==> r.value.Valid() && Loaded(stored) == Success(SnapshotOf(r.value))
    ensures r.Success? ==> forall k :: k in r.value.entries ==> fresh(r.value.entries[k])
    ensures r.Failure? ==> Loaded(stored) == Failure(r.error)
  {
    var d := Empty<Account>();
    if stored.None? {
      MirrorsSnapshot(d, Empty());
      return Success(d);
    }
    var lines := Lines(stored.value);
    ghost var loaded := ParseFile(stored.value);
    ghost var records := Empty<Record>();
    for i := 0 to |lines|
      invariant d.Valid() && records.Valid() && Mirrors(d, records)
      invariant forall k :: k in d.entries ==> fresh(d.entries[k])
      invariant loaded == ParseLines(lines[i..], records)
    {
      var parsed := ParseLine(lines[i]);
      ParseLinesFrom(lines, i, records);
      if parsed.Failure? {
        return Failure(parsed.error);
      }
      var rec := parsed.value;
      var acc := new Account(rec.id, rec.password, rec.kind, rec.balance);
      MirrorsPut(d, records, rec.id, acc);
      ghost var before := d;
      d := d.Put(rec.id, acc);
      records := records.Put(rec.id, rec);
      forall k | k in d.entries
        ensures fresh(d.entries[k])
      {
        if k != rec.id {
          assert d.entries[k] == before.entries[k];
        }
      }
    }
    assert lines[|lines|..] == [];
    MirrorsSnapshot(d, records);
    return Success(d);
  }

  /** The text saving writes for the accounts: one line per account, in the dictionary's order. */
  method WriteLines(accounts: Dict<Account>) returns (text: string)
    requires accounts.Valid()
    ensures text == Serialise(SnapshotOf(accounts))
  {
    var snapshot := SnapshotOf(accounts);
    var keys := accounts.keys;
    text := "";
    for i := 0 to |keys|
      invariant text == SerialiseKeys(keys[..i], snapshot.entries)
    {
      var acc := accounts.entries[keys[i]];
      var line := acc.id + "," + acc.password + "," + KindText(acc.kind) + "," + BalanceText(acc.balance) + "\n";
      FormatLineText(RecordOf(acc));
      SerialiseStep(keys, i, snapshot.entries);
      text := text + line;
    }
    assert keys[..|keys|] == keys;
  }

  class BankSystem {
    /** The accounts, by id, in the order they were filed. */
    var accounts: Dict<Account>
    /** The text of the accounts file, or `None` while there is no such file. */
    var file: Option<string>

    constructor (file: Option<string>, accounts: Dict<Account>)
      requires Registered(accounts)
      ensures Valid()
      ensures this.file == file && this.accounts == accounts
    {
      this.file := file;
      this.accounts := accounts;
    }

    ghost predicate Valid()
      reads this
    {
      Registered(accounts)
    }

    /** The records saving writes right now. */
    function Snapshot(): Dict<Record>
      reads this`accounts, accounts.entries.Values
    {
      SnapshotOf(accounts)
    }

    /**
     * Opens the bank on the stored accounts file, as constructing `BankSystem`
     * does. A line that cannot be read makes the opening fail with its error.
     */
    static method Open(stored: Option<string>) returns (r: Result<BankSystem, LoadError>)
      ensures r.Failure? ==> Loaded(stored) == Failure(r.error)
      ensures r.Success? ==> fresh(r.value) && r.value.Valid() && r.value.file == stored
      ensures r.Success? ==> Loaded(stored) == Success(r.value.Snapshot())
    {
      var loaded := LoadAccounts(stored);
      if loaded.Failure? {
        return Failure(loaded.error);
      }
      var bank := new BankSystem(stored, loaded.value);
      return Success(bank);
    }

    /**
     * Rewrites the accounts file: one line per account, in the dictionary's
     * order. Loading the new file gives back what was saved.
     */
    method SaveAccounts()
      requires Valid()
      modifies this`file
      ensures file == Some(Serialise(Snapshot()))
    {
      var text := WriteLines(accounts);
      ghost var saved := Snapshot();
      file := Some(text);
      assert Snapshot() == saved;
    }

    /**
     * Files a new account with no money under the drawn id and password, written
     * in decimal, replacing any account already filed under that id, and saves.
     */
    method CreateAccount(accType: string, idNumber: int, passNumber: int) returns (acc: Account)
      requires Valid()
      requires 10000 <= idNumber <= 99999 && 1000 <= passNumber <= 9999
      modifies this
      ensures Valid() && fresh(acc)
      ensures acc.id == NatText(idNumber) && acc.password == NatText(passNumber)
      ensures |acc.id| == 5 && DigitsValue(acc.id) == idNumber
      ensures |acc.password| == 4 && DigitsValue(acc.password) == passNumber
      ensures (acc.kind == Personal <==> accType == "Personal") && acc.balance == 0
      ensures accounts == old(accounts).Put(acc.id, acc)
      ensures Login(acc.id, acc.password) == Success(acc)
      ensures file == Some(Serialise(Snapshot()))
    {
      var newId := NatText(idNumber);
      var newPass := NatText(passNumber);
      DrawnText(idNumber, passNumber);
      acc := new Account(newId, newPass, KindOf(accType), 0);
      RegisteredPut(accounts, acc);
      accounts := accounts.Put(newId, acc);
      SaveAccounts();
    }

    /** Looks up the id and hands back its account when the password matches; one error for every refusal. */
    function Login(id: string, password: string): (r: Result<Account, BankError>)
      reads this
      ensures r.Success? <==> id in accounts.entries && accounts.entries[id].password == password
      ensures r.Success? ==> r.value == accounts.entries[id]
      ensures r.Failure? ==> r.error == InvalidInputError(LoginRefused)
    {
      if id in accounts.entries && accounts.entries[id].password == password then
        Success(accounts.entries[id])
      else
        Failure(InvalidInputError(LoginRefused))
    }

    /** Removes the account filed under the id and saves; an id not filed changes nothing. */
    method DeleteAccount(id: string)
      requires Valid()
      modifies this
      ensures Valid()
      ensures accounts == old(accounts).Remove(id)
      ensures forall password :: Login(id, password).Failure?
      ensures id in old(accounts.entries) ==> file == Some(Serialise(Snapshot()))
      ensures id !in old(accounts.entries) ==> file == old(file) && accounts == old(accounts)
    {
      if id in accounts.entries {
        RegisteredRemove(accounts, id);
        accounts := accounts.Remove(id);
        SaveAccounts();
      }
    }
  }

  /** Opening the bank again on the file it saved gives back the accounts it saved, in their order. */
  lemma ReopenSaved(bank: BankSystem)
    requires bank.Valid() && bank.file == Some(Serialise(bank.Snapshot()))
    ensures Loaded(bank.file) == Success(bank.Snapshot())
  {
    SnapshotConsistent(bank.accounts);
    SaveLoadRoundTrip(bank.Snapshot());
  }

  /** The account a login hands back carries the id and password it was asked for. */
  lemma LoginReturnsOwner(bank: BankSystem, id: string, password: string)
    requires bank.Valid() && bank.Login(id, password).Success?
    ensures bank.Login(id, password).value.id == id
    ensures bank.Login(id, password).value.password == password
  {
  }
}
