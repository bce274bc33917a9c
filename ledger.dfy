/**
 * One bank account and the operations that change its balance: deposit,
 * withdraw, transfer to another account and mobile top-up. Each returns the
 * confirmation message on success or the error the account raises.
 */
module Ledger {
  import opened Results
  import opened Text

  /** The two account classes differ only in this tag. */
  datatype Kind = Personal | Business

  /** The type field stored for each kind. */
  function KindText(k: Kind): string {
    match k
    case Personal => "Personal"
    case Business => "Business"
  }

  /** The kind an account type name stands for: any name other than "Personal" means a business account. */
  function KindOf(t: string): (k: Kind)
    ensures k == Personal <==> t == "Personal"
  {
    if t == "Personal" then Personal else Business
  }

  lemma KindRoundTrip(k: Kind)
    ensures KindOf(KindText(k)) == k
  {
    match k
    case Personal =>
    case Business => assert KindText(k)[0] != "Personal"[0];
  }

  /** The two exception classes, each carrying its message. */
  datatype BankError = InvalidInputError(message: string) | TransferError(message: string)

  const DepositSucceeded := "Deposit successful."
  const DepositNotPositive := "Deposit amount must be positive."
  const WithdrawalSucceeded := "Withdrawal successful."
  const WithdrawalRefused := "Invalid amount or insufficient funds."
  const TransferSucceeded := "Transfer successful."
  const RecipientInvalid := "Recipient account is invalid."
  const PhoneInvalid := "Phone number must be 8 digits."
  const TopUpRefused := "Top-up amount invalid or insufficient funds."

  function TopUpMessage(amount: int, phone: string): string {
    "Mobile top-up of " + IntText(amount) + " to " + phone + " successful."
  }

  /** Every top-up confirmation opens with the words "Mobile top-up". */
  lemma TopUpMessageOpening(amount: int, phone: string)
    ensures |TopUpMessage(amount, phone)| >= 13 && TopUpMessage(amount, phone)[..13] == "Mobile top-up"
  {
    var rest := IntText(amount) + " to " + phone + " successful.";
    assert TopUpMessage(amount, phone) == "Mobile top-up" + (" of " + rest);
  }

  /** A phone number the top-up accepts: exactly eight characters, all of them decimal digits. */
  predicate IsValidPhone(phone: string) {
    |phone| == 8 && AllDigits(phone)
  }

  class Account {
    const id: string
    const password: string
    const kind: Kind
    var balance: int

    constructor (id: string, password: string, kind: Kind, balance: int)
      ensures this.id == id && this.password == password && this.kind == kind
      ensures this.balance == balance
    {
      this.id := id;
      this.password := password;
      this.kind := kind;
      this.balance := balance;
    }

    /** Adds a positive amount; any other amount is refused and the balance stays. */
    method Deposit(amount: int) returns (r: Result<string, BankError>)
      modifies this
      ensures r.Success? <==> amount > 0
      ensures r.Success? ==> r.value == DepositSucceeded && balance == old(balance) + amount
      ensures r.Failure? ==> r.error == InvalidInputError(DepositNotPositive) && balance == old(balance)
      ensures old(balance) >= 0 ==> balance >= 0
    {
      if amount > 0 {
        balance := balance + amount;
        return Success(DepositSucceeded);
      }
      return Failure(InvalidInputError(DepositNotPositive));
    }

    /**
     * Takes out a positive amount the balance covers; a non-positive amount and an
     * overdraft are refused alike, and the balance stays.
     */
    method Withdraw(amount: int) returns (r: Result<string, BankError>)
      modifies this
      ensures r.Success? <==> 0 < amount <= old(balance)
      ensures r.Success? ==> r.value == WithdrawalSucceeded && balance == old(balance) - amount
      ensures r.Failure? ==> r.error == InvalidInputError(WithdrawalRefused) && balance == old(balance)
      ensures old(balance) >= 0 ==> balance >= 0
    {
      if amount > 0 && amount <= balance {
        balance := balance - amount;
        return Success(WithdrawalSucceeded);
      }
      return Failure(InvalidInputError(WithdrawalRefused));
    }

    /**
     * Withdraws from this account, then deposits the same amount into the
     * recipient. A recipient that is not an account is refused before anything
     * happens; a refused withdrawal is passed on and nothing is deposited.
     */
    method Transfer(amount: int, other: Recipient) returns (r: Result<string, BankError>)
      modifies this, other.Accounts()
      ensures other.NotAnAccount? ==> r == Failure(TransferError(RecipientInvalid)) && balance == old(balance)
      ensures other.ToAccount? ==> (r.Success? <==> 0 < amount <= old(balance))
      ensures other.ToAccount? && r.Failure? ==>
        && r.error == InvalidInputError(WithdrawalRefused)
        && balance == old(balance)
        && other.account.balance == old(other.account.balance)
      ensures r.Success? ==> r.value == TransferSucceeded
      ensures r.Success? && other.account != this ==>
        && balance == old(balance) - amount
        && other.account.balance == old(other.account.balance) + amount
      ensures r.Success? && other.account == this ==> balance == old(balance)
      ensures other.ToAccount? && other.account != this ==>
        balance + other.account.balance == old(balance + other.account.balance)
      ensures old(balance) >= 0 ==> balance >= 0
      ensures other.ToAccount? && old(other.account.balance) >= 0 ==> other.account.balance >= 0
    {
      if other.NotAnAccount? {
        return Failure(TransferError(RecipientInvalid));
      }
      var recipient := other.account;
      var withdrawn := Withdraw(amount);
      if withdrawn.Failure? {
        return withdrawn;
      }
      var deposited := recipient.Deposit(amount);
      assert deposited.Success?;
      return Success(TransferSucceeded);
    }

    /**
     * Sends an amount to a phone number. A malformed number is refused whatever
     * the amount; then the amount must be positive and covered by the balance.
     */
    method TopUpMobile(phone: string, amount: int) returns (r: Result<string, BankError>)
      modifies this
      ensures !IsValidPhone(phone) ==> r == Failure(InvalidInputError(PhoneInvalid))
      ensures IsValidPhone(phone) ==> (r.Success? <==> 0 < amount <= old(balance))
      ensures IsValidPhone(phone) && r.Failure? ==> r.error == InvalidInputError(TopUpRefused)
      ensures r.Success? ==> r.value == TopUpMessage(amount, phone) && balance == old(balance) - amount
      ensures r.Failure? ==> balance == old(balance)
      ensures old(balance) >= 0 ==> balance >= 0
    {
      if !IsValidPhone(phone) {
        return Failure(InvalidInputError(PhoneInvalid));
      }
      if amount <= 0 || amount > balance {
        return Failure(InvalidInputError(TopUpRefused));
      }
      balance := balance - amount;
      return Success(TopUpMessage(amount, phone));
    }
  }

  /** What a transfer is handed as its recipient: an account, or some other value. */
  datatype Recipient = ToAccount(account: Account) | NotAnAccount(description: string) {
    function Accounts(): set<Account> {
      if ToAccount? then {account} else {}
    }
  }
}
