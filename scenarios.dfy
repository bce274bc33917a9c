/**
 * The unit tests of the banking application, each stated as a method whose
 * postcondition is what the test asserts. Every test starts from the same two
 * accounts: a personal one with 500 and a business one with 1000.
 */
module Scenarios {
  import opened Results
  import opened Ledger
  import opened Records
  import opened Registry

  method Fixtures() returns (personal: Account, business: Account)
    ensures fresh(personal) && fresh(business)
    ensures personal.id == "10001" && personal.password == "1234" && personal.kind == Personal && personal.balance == 500
    ensures business.id == "20001" && business.password == "4321" && business.kind == Business && business.balance == 1000
  {
    personal := new Account("10001", "1234", Personal, 500);
    business := new Account("20001", "4321", Business, 1000);
  }

  method DepositNegative() returns (r: Result<string, BankError>, balance: int)
    ensures r == Failure(InvalidInputError(DepositNotPositive)) && balance == 500
  {
    var personal, _ := Fixtures();
    r := personal.Deposit(-100);
    balance := personal.balance;
  }

  method WithdrawExcessive() returns (r: Result<string, BankError>, balance: int)
    ensures r == Failure(InvalidInputError(WithdrawalRefused)) && balance == 500
  {
    var personal, _ := Fixtures();
    r := personal.Withdraw(1000);
    balance := personal.balance;
  }

  method TopUpInvalidNumber() returns (r: Result<string, BankError>, balance: int)
    ensures r == Failure(InvalidInputError(PhoneInvalid)) && balance == 500
  {
    var personal, _ := Fixtures();
    r := personal.TopUpMobile("12345", 50);
    balance := personal.balance;
  }

  method TopUpInsufficientBalance() returns (r: Result<string, BankError>, balance: int)
    ensures r == Failure(InvalidInputError(TopUpRefused)) && balance == 500
  {
    var personal, _ := Fixtures();
    r := personal.TopUpMobile("12345678", 9999);
    balance := personal.balance;
  }

  method TransferInvalidAccount() returns (r: Result<string, BankError>, balance: int)
    ensures r == Failure(TransferError(RecipientInvalid)) && balance == 500
  {
    var personal, _ := Fixtures();
    r := personal.Transfer(100, NotAnAccount("Invalid_account"));
    balance := personal.balance;
  }

  method TransferInsufficientBalance() returns (r: Result<string, BankError>, sender: int, recipient: int)
    ensures r == Failure(InvalidInputError(WithdrawalRefused)) && sender == 500 && recipient == 1000
  {
    var personal, business := Fixtures();
    r := personal.Transfer(1000, ToAccount(business));
    sender, recipient := personal.balance, business.balance;
  }

  method ValidDeposit() returns (r: Result<string, BankError>, balance: int)
    ensures r == Success("Deposit successful.") && balance == 700
  {
    var personal, _ := Fixtures();
    r := personal.Deposit(200);
    balance := personal.balance;
  }

  method ValidWithdraw() returns (r: Result<string, BankError>, balance: int)
    ensures r == Success("Withdrawal successful.") && balance == 400
  {
    var personal, _ := Fixtures();
    r := personal.Withdraw(100);
    balance := personal.balance;
  }

  method ValidTransfer() returns (r: Result<string, BankError>, sender: int, recipient: int)
    ensures r == Success("Transfer successful.") && sender == 300 && recipient == 1200
  {
    var personal, business := Fixtures();
    r := personal.Transfer(200, ToAccount(business));
    sender, recipient := personal.balance, business.balance;
  }

  method ValidTopUp() returns (r: Result<string, BankError>, balance: int)
    ensures r == Success(TopUpMessage(100, "98765432")) && balance == 400
    ensures |r.value| >= 13 && r.value[..13] == "Mobile top-up"
  {
    var personal, _ := Fixtures();
    r := personal.TopUpMobile("98765432", 100);
    balance := personal.balance;
    TopUpMessageOpening(100, "98765432");
  }

  /** Whatever the accounts file holds, once it opens, a created account is filed under its id. */
  method AccountCreation(stored: Option<string>, idNumber: int, passNumber: int) returns (opens: bool, filed: bool)
    requires 10000 <= idNumber <= 99999 && 1000 <= passNumber <= 9999
    ensures opens <==> Loaded(stored).Success?
    ensures opens ==> filed
  {
    var bank := BankSystem.Open(stored);
    opens, filed := bank.Success?, false;
    if bank.Success? {
      var acc := bank.value.CreateAccount("Personal", idNumber, passNumber);
      filed := acc.id in bank.value.accounts.entries;
    }
  }

  /** Logging in as "error id" fails whenever the opened file has no such account with that password. */
  method LoginInvalid(stored: Option<string>) returns (r: Option<Result<Account, BankError>>)
    ensures r.Some? <==> Loaded(stored).Success?
    ensures r.Some? && !("error id" in Loaded(stored).value.entries && Loaded(stored).value.entries["error id"].password == "no pass")
      ==> r.value == Failure(InvalidInputError("Invalid account ID or password"))
  {
    var bank := BankSystem.Open(stored);
    if bank.Failure? {
      return None;
    }
    r := Some(bank.value.Login("error id", "no pass"));
  }
}
