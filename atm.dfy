/** The ATM object and the bank service behind it. */
module Atm {
  import opened Wrappers
  import opened AtmCash
  import opened AtmRules

  /** Accounts are filed under their own number. */
  predicate Keyed(accounts: map<string, Account>)
  {
    forall n :: n in accounts ==> accounts[n].accountNumber == n
  }

  class BankService {
    var accounts: map<string, Account>
    /** Cards by card number. */
    var cards: map<string, Card>

    ghost predicate Valid()
      reads this
    {
      Keyed(accounts)
    }

    constructor ()
      ensures Valid() && accounts == map[] && cards == map[]
    {
      accounts := map[];
      cards := map[];
    }

    /** addAccount: replaces any account filed under the same number. */
    method AddAccount(account: Account)
      modifies this
      ensures accounts == old(accounts)[account.accountNumber := account] && cards == old(cards)
      ensures old(Valid()) ==> Valid()
    {
      accounts := accounts[account.accountNumber := account];
    }

    /** addCard: replaces any card filed under the same number. */
    method AddCard(card: Card)
      modifies this
      ensures cards == old(cards)[card.cardNumber := card] && accounts == old(accounts)
    {
      cards := cards[card.cardNumber := card];
    }

    /** authenticateUser: an unknown card number fails; a known one passes
        exactly with the PIN it was registered with. */
    function AuthenticateUser(cardNumber: string, pin: int): (ok: bool)
      reads this
      ensures ok <==> Authenticates(cards, cardNumber, pin)
      ensures cardNumber !in cards ==> !ok
      ensures ok ==> cards[cardNumber].pin == pin
    {
      var card := if cardNumber in cards then Some(cards[cardNumber]) else None;
      card.Some? && ValidatePin(card.value, pin)
    }

    /** getAccount: the account filed under the card number, or None. */
    function GetAccount(cardNumber: string): (a: Option<Account>)
      reads this
      ensures a.Some? <==> cardNumber in accounts
      ensures a.Some? ==> a.value == accounts[cardNumber]
      ensures Valid() && a.Some? ==> a.value.accountNumber == cardNumber
    {
      if cardNumber in accounts then Some(accounts[cardNumber]) else None
    }
  }

  /** After addCard, exactly that card's PIN authenticates its number. */
  lemma AuthenticateAfterAddCard(cards: map<string, Card>, card: Card, pin: int)
    ensures Authenticates(cards[card.cardNumber := card], card.cardNumber, pin) <==> pin == card.pin
  {
  }

  class ATM {
    var phase: Phase
    var currentCard: Option<Card>
    const bankService: BankService
    const cashDispenser: Dispenser

    ghost function State(): Machine
      reads this, bankService
    {
      Machine(phase, currentCard, bankService.accounts)
    }

    ghost predicate Valid()
      reads this, bankService
    {
      Carded(State()) && bankService.Valid() && cashDispenser == StandardChain()
    }

    /** The machine starts Idle with no card, an empty bank, and the
        2000 → 500 → 100 dispenser chain. */
    constructor ()
      ensures Valid() && fresh(bankService)
      ensures State() == Fresh(map[]) && bankService.cards == map[]
      ensures cashDispenser == StandardChain()
    {
      phase := Idle;
      currentCard := None;
      bankService := new BankService();
      cashDispenser := Dispenser(2000, Some(Dispenser(500, Some(Dispenser(100, None)))));
    }

    /** setState and setCurrentCard, as the states call them. */
    method Become(p: Phase, card: Option<Card>)
      modifies this
      ensures phase == p && currentCard == card
    {
      phase := p;
      currentCard := card;
    }

    method InsertCard(card: Card) returns (notice: Notice)
      requires Valid()
      modifies this
      ensures Valid()
      ensures (State(), notice) == Handle(old(State()), Request.InsertCard(card), bankService.cards)
    {
      match phase
      case Idle =>
        Become(HasCard, Some(card));
        notice := CardInserted;
      case _ =>
        notice := CardAlreadyInserted;
    }

    method EnterPin(pin: int) returns (notice: Notice)
      requires Valid()
      modifies this
      ensures Valid()
      ensures (State(), notice) == Handle(old(State()), Request.EnterPin(pin), bankService.cards)
    {
      match phase
      case Idle =>
        notice := InsertCardFirst;
      case HasCard =>
        if bankService.AuthenticateUser(currentCard.value.cardNumber, pin) {
          Become(SelectOption, currentCard);
          notice := PinCorrect;
        } else {
          Become(Idle, currentCard);
          notice := InvalidPin;
        }
      case _ =>
        notice := AlreadyAuthenticated;
    }

    method SelectOperation(operation: string) returns (notice: Notice)
      requires Valid()
      modifies this
      ensures Valid()
      ensures (State(), notice) == Handle(old(State()), Request.SelectOperation(operation), bankService.cards)
    {
      match phase
      case Idle =>
        notice := InsertCardFirst;
      case HasCard =>
        notice := EnterPinFirst;
      case SelectOption =>
        if EqualsIgnoreCase(operation, "WITHDRAW") {
          Become(Withdrawal, currentCard);
          notice := WithdrawalSelected;
        } else {
          notice := InvalidOperation;
        }
      case Withdrawal =>
        notice := AlreadyInWithdrawal;
    }

    method Withdraw(amount: int) returns (notice: Notice)
      requires Valid()
      modifies this, bankService
      ensures Valid()
      ensures bankService.cards == old(bankService.cards)
      ensures (State(), notice) == Handle(old(State()), Request.Withdraw(amount), bankService.cards)
    {
      match phase
      case Idle =>
        notice := InsertCardFirst;
      case HasCard =>
        notice := EnterPinFirst;
      case SelectOption =>
        notice := SelectOperationFirst;
      case Withdrawal =>
        var account := bankService.GetAccount(currentCard.value.cardNumber);
        if account.None? {
          return NoAccount;
        }
        if account.value.balance < amount {
          notice := InsufficientFunds;
        } else {
          // account.debit(amount), on the account the bank holds under that number
          bankService.AddAccount(account.value.(balance := account.value.balance - amount));
          notice := Dispensed(Dispense(cashDispenser, amount));
        }
        Become(Idle, None);
    }

    method Exit() returns (notice: Notice)
      requires Valid()
      modifies this
      ensures Valid()
      ensures (State(), notice) == Handle(old(State()), Request.Exit, bankService.cards)
    {
      match phase
      case Idle =>
        notice := AlreadyIdle;
      case HasCard =>
        Become(Idle, None);
        notice := EjectingCard;
      case SelectOption =>
        Become(Idle, None);
        notice := Exiting;
      case Withdrawal =>
        Become(Idle, currentCard);
        notice := Cancelling;
    }
  }
}
