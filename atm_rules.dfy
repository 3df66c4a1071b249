/** The ATM's card, PIN and withdrawal state machine as values: one function
    per state, answering each of the five requests, and the dispatch on the
    current state. */
module AtmRules {
  import opened Wrappers
  import opened AtmCash

  datatype Card = Card(cardNumber: string, pin: int)

  /** An account; its balance is kept as a whole number. */
  datatype Account = Account(accountNumber: string, balance: int)

  /** The four states of the machine. */
  datatype Phase = Idle | HasCard | SelectOption | Withdrawal

  /** The state of the machine, the card it holds, and the bank's accounts. */
  datatype Machine = Machine(phase: Phase, card: Option<Card>, accounts: map<string, Account>)

  /** The five operations every state answers. */
  datatype Request =
    | InsertCard(card: Card)
    | EnterPin(pin: int)
    | SelectOperation(operation: string)
    | Withdraw(amount: int)
    | Exit

  /** What the machine prints in answer. NoAccount stands for a withdrawal
      whose card number has no account, where reading the balance fails
      and nothing changes. */
  datatype Notice =
    | CardInserted | InsertCardFirst | AlreadyIdle
    | CardAlreadyInserted | PinCorrect | InvalidPin | EnterPinFirst | EjectingCard
    | AlreadyAuthenticated | WithdrawalSelected | InvalidOperation | SelectOperationFirst | Exiting
    | AlreadyInWithdrawal | InsufficientFunds | Dispensed(lines: seq<Line>) | Cancelling
    | NoAccount

  /** Card.validatePin. */
  predicate ValidatePin(c: Card, entered: int)
  {
    c.pin == entered
  }

  /** authenticateUser: a card with this number is registered and its PIN
      is the one entered. */
  predicate Authenticates(cards: map<string, Card>, cardNumber: string, pin: int)
  {
    cardNumber in cards && ValidatePin(cards[cardNumber], pin)
  }

  /** Character.toUpperCase on the characters the model folds: ASCII
      letters, and the dotless i (U+0131), whose upper case is I. */
  function ToUpperCase(c: char): char
  {
    if 'a' <= c <= 'z' then (c as int - 32) as char
    else if c == '\U{0131}' then 'I'
    else c
  }

  /** Character.toLowerCase on the characters the model folds: ASCII
      letters, and the dotted capital I (U+0130), whose lower case is i. */
  function ToLowerCase(c: char): char
  {
    if 'A' <= c <= 'Z' then (c as int + 32) as char
    else if c == '\U{0130}' then 'i'
    else c
  }

  /** Two characters match ignoring case as String.regionMatches compares
      them: equal, equal in upper case, or equal once the upper cases are
      lowered. */
  predicate CharsMatch(a: char, b: char)
  {
    a == b
    || ToUpperCase(a) == ToUpperCase(b)
    || ToLowerCase(ToUpperCase(a)) == ToLowerCase(ToUpperCase(b))
  }

  /** equalsIgnoreCase: the same length and matching characters. */
  predicate EqualsIgnoreCase(s: string, t: string)
  {
    |s| == |t| && forall i :: 0 <= i < |s| ==> CharsMatch(s[i], t[i])
  }

  /** A character matches a capital ASCII letter exactly when it is that
      letter in either case, or, for I only, the dotless i or the dotted
      capital I. */
  lemma MatchesCapital(a: char, c: char)
    requires 'A' <= c <= 'Z'
    ensures CharsMatch(a, c) <==>
      a == c || a == (c as int + 32) as char || (c == 'I' && (a == '\U{0131}' || a == '\U{0130}'))
  {
  }

  /** The operation selects a withdrawal exactly when it spells WITHDRAW
      letter by letter in either case, with the I also written as the
      dotless i or the dotted capital I. */
  lemma WithdrawSpellings(op: string)
    ensures EqualsIgnoreCase(op, "WITHDRAW") <==>
      |op| == 8 && forall i :: 0 <= i < 8 ==>
        op[i] == "WITHDRAW"[i] || op[i] == "withdraw"[i] || (i == 1 && (op[i] == '\U{0131}' || op[i] == '\U{0130}'))
  {
    if |op| == 8 {
      forall i | 0 <= i < 8
        ensures CharsMatch(op[i], "WITHDRAW"[i]) <==>
          op[i] == "WITHDRAW"[i] || op[i] == "withdraw"[i] || (i == 1 && (op[i] == '\U{0131}' || op[i] == '\U{0130}'))
      {
        MatchesCapital(op[i], "WITHDRAW"[i]);
      }
    }
  }

  /** "wıthdraw" and "WİTHDRAW" select a withdrawal; "withdrawal" and
      "deposit" do not. */
  lemma TurkishIsSelectWithdraw()
    ensures EqualsIgnoreCase("w\U{0131}thdraw", "WITHDRAW")
    ensures EqualsIgnoreCase("W\U{0130}THDRAW", "WITHDRAW")
    ensures !EqualsIgnoreCase("withdrawal", "WITHDRAW") && !EqualsIgnoreCase("deposit", "WITHDRAW")
  {
    WithdrawSpellings("w\U{0131}thdraw");
    WithdrawSpellings("W\U{0130}THDRAW");
  }

  /** Every state but Idle holds a card. */
  predicate Carded(m: Machine)
  {
    m.phase != Idle ==> m.card.Some?
  }

  /** IdleState. */
  function OnIdle(m: Machine, r: Request): (Machine, Notice)
  {
    match r
    case InsertCard(card) => (m.(phase := HasCard, card := Some(card)), CardInserted)
    case EnterPin(_) => (m, InsertCardFirst)
    case SelectOperation(_) => (m, InsertCardFirst)
    case Withdraw(_) => (m, InsertCardFirst)
    case Exit => (m, AlreadyIdle)
  }

  /** HasCardState: the PIN is checked against the bank's record of the
      held card's number. A wrong PIN goes back to Idle and keeps the card. */
  function OnHasCard(m: Machine, r: Request, cards: map<string, Card>): (Machine, Notice)
    requires m.card.Some?
  {
    match r
    case InsertCard(_) => (m, CardAlreadyInserted)
    case EnterPin(pin) =>
      if Authenticates(cards, m.card.value.cardNumber, pin) then (m.(phase := SelectOption), PinCorrect)
      else (m.(phase := Idle), InvalidPin)
    case SelectOperation(_) => (m, EnterPinFirst)
    case Withdraw(_) => (m, EnterPinFirst)
    case Exit => (m.(phase := Idle, card := None), EjectingCard)
  }

  /** SelectOptionState: only "withdraw", in any case, is an operation. */
  function OnSelectOption(m: Machine, r: Request): (Machine, Notice)
  {
    match r
    case InsertCard(_) => (m, CardAlreadyInserted)
    case EnterPin(_) => (m, AlreadyAuthenticated)
    case SelectOperation(op) =>
      if EqualsIgnoreCase(op, "WITHDRAW") then (m.(phase := Withdrawal), WithdrawalSelected)
      else (m, InvalidOperation)
    case Withdraw(_) => (m, SelectOperationFirst)
    case Exit => (m.(phase := Idle, card := None), Exiting)
  }

  /** WithdrawalState: the account is looked up by the card's number; with
      enough balance it is debited and the amount dispensed. Either way the
      card is dropped and the machine goes back to Idle. Exit goes back to
      Idle and keeps the card. */
  function OnWithdrawal(m: Machine, r: Request): (Machine, Notice)
    requires m.card.Some?
  {
    match r
    case InsertCard(_) => (m, CardAlreadyInserted)
    case EnterPin(_) => (m, AlreadyAuthenticated)
    case SelectOperation(_) => (m, AlreadyInWithdrawal)
    case Withdraw(amount) =>
      var number := m.card.value.cardNumber;
      if number !in m.accounts then (m, NoAccount)
      else
        var account := m.accounts[number];
        if account.balance < amount then (Machine(Idle, None, m.accounts), InsufficientFunds)
        else
          var debited := account.(balance := account.balance - amount);
          (Machine(Idle, None, m.accounts[number := debited]), Dispensed(Dispense(StandardChain(), amount)))
    case Exit => (m.(phase := Idle), Cancelling)
  }

  /** The ATM hands each request to its current state. */
  function Handle(m: Machine, r: Request, cards: map<string, Card>): (res: (Machine, Notice))
    requires Carded(m)
    ensures Carded(res.0)
  {
    match m.phase
    case Idle => OnIdle(m, r)
    case HasCard => OnHasCard(m, r, cards)
    case SelectOption => OnSelectOption(m, r)
    case Withdrawal => OnWithdrawal(m, r)
  }

  /** A new machine is Idle with no card. */
  function Fresh(accounts: map<string, Account>): (m: Machine)
    ensures Carded(m) && m.phase == Idle
  {
    Machine(Idle, None, accounts)
  }

  // ---------------------------------------------------------------------
  // Properties of the machine

  /** Past the PIN: the machine is choosing or withdrawing, and then the
      card it holds is one the bank knows. */
  predicate Authorized(m: Machine, cards: map<string, Card>)
  {
    Carded(m) && ((m.phase == SelectOption || m.phase == Withdrawal) ==> m.card.value.cardNumber in cards)
  }

  /** While the bank's cards stay as they are, the machine only gets past
      the PIN with a card the bank knows. */
  lemma HandleKeepsAuthorized(m: Machine, r: Request, cards: map<string, Card>)
    requires Authorized(m, cards)
    ensures Authorized(Handle(m, r, cards).0, cards)
  {
  }

  /** Entering SelectOption takes a PIN that authenticates the held card,
      and entering Withdrawal takes the withdraw operation. */
  lemma GatesToWithdrawal(m: Machine, r: Request, cards: map<string, Card>)
    requires Carded(m)
    ensures var n := Handle(m, r, cards).0;
      (n.phase == SelectOption && m.phase != SelectOption ==>
        m.phase == HasCard && r.EnterPin? && Authenticates(cards, m.card.value.cardNumber, r.pin))
      && (n.phase == Withdrawal && m.phase != Withdrawal ==>
        m.phase == SelectOption && r.SelectOperation? && EqualsIgnoreCase(r.operation, "WITHDRAW"))
  {
  }

  /** Money moves only on a withdrawal with enough balance: exactly the held
      card's account is debited by exactly the amount, the whole amount
      goes to the dispensers, and the machine goes back to Idle. */
  lemma MoneyMovesOnlyOnWithdraw(m: Machine, r: Request, cards: map<string, Card>)
    requires Carded(m)
    ensures var (n, notice) := Handle(m, r, cards);
      n.accounts != m.accounts ==>
        m.phase == Withdrawal && r.Withdraw?
        && var number := m.card.value.cardNumber;
        number in m.accounts && m.accounts[number].balance >= r.amount
        && n.accounts == m.accounts[number := m.accounts[number].(balance := m.accounts[number].balance - r.amount)]
        && notice == Dispensed(Dispense(StandardChain(), r.amount))
        && n.phase == Idle && n.card == None
  {
  }

  /** A withdrawal that pays out gives out exactly the amount debited, in
      notes and reported leftover. */
  lemma WithdrawPaysAmount(m: Machine, amount: int, cards: map<string, Card>)
    requires Carded(m) && m.phase == Withdrawal && amount >= 0
    ensures var (n, notice) := Handle(m, Withdraw(amount), cards);
      notice.Dispensed? ==> Paid(notice.lines) + Unpaid(notice.lines) == amount
  {
    Conservation(StandardChain(), amount);
  }

  /** Whatever card an Idle machine still holds is never read: any request
      but insertCard gives the same answer and the same accounts whatever
      the card. */
  lemma IdleIgnoresCard(m: Machine, r: Request, c: Option<Card>, cards: map<string, Card>)
    requires m.phase == Idle
    ensures var (n1, a1) := Handle(m, r, cards);
      var (n2, a2) := Handle(m.(card := c), r, cards);
      a1 == a2 && n1.phase == n2.phase && n1.accounts == n2.accounts
      && (r.InsertCard? ==> n1 == n2)
  {
  }

  /** The answers of a state to a request it does not accept. */
  predicate Refusal(notice: Notice)
  {
    notice in {InsertCardFirst, AlreadyIdle, CardAlreadyInserted, EnterPinFirst, AlreadyAuthenticated,
               InvalidOperation, SelectOperationFirst, AlreadyInWithdrawal, NoAccount}
  }

  /** Every request but a successful withdrawal leaves the accounts as they
      are, and a request a state does not accept changes nothing at all. */
  lemma RefusedRequestsChangeNothing(m: Machine, r: Request, cards: map<string, Card>)
    requires Carded(m)
    ensures var (n, notice) := Handle(m, r, cards);
      Refusal(notice) ==> n == m
  {
  }

  /** withdraw(-x) passes the balance check and, as debit subtracts the
      amount, credits x to the account while nothing is dispensed. */
  lemma NegativeWithdrawalCredits(m: Machine, x: int, cards: map<string, Card>)
    requires Carded(m) && m.phase == Withdrawal && x > 0
    requires m.card.value.cardNumber in m.accounts && m.accounts[m.card.value.cardNumber].balance >= 0
    ensures var (n, notice) := Handle(m, Withdraw(-x), cards);
      var number := m.card.value.cardNumber;
      n.accounts[number].balance == m.accounts[number].balance + x && notice == Dispensed([])
  {
    NothingForNothing(StandardChain(), -x);
  }

  /** The three scenarios of the demo on one machine, card 1234567890 with
      PIN 1234 and a balance of 10000: withdrawing 2700 pays 1×2000,
      1×500 and 2×100; a wrong PIN sends the machine back to Idle; asking
      for 20000 then reports insufficient funds and leaves 7300. */
  lemma DemoScenarios()
    ensures var card := Card("1234567890", 1234);
      var cards := map["1234567890" := card];
      var m0 := Fresh(map["1234567890" := Account("1234567890", 10000)]);
      var (m1, _) := Handle(m0, InsertCard(card), cards);
      var (m2, a2) := Handle(m1, EnterPin(1234), cards);
      var (m3, a3) := Handle(m2, SelectOperation("WITHDRAW"), cards);
      var (m4, a4) := Handle(m3, Withdraw(2700), cards);
      a2 == PinCorrect && a3 == WithdrawalSelected
      && a4 == Dispensed([Notes(1, 2000), Notes(1, 500), Notes(2, 100)])
      && m4 == Machine(Idle, None, map["1234567890" := Account("1234567890", 7300)])
      && var (m5, _) := Handle(m4, InsertCard(card), cards);
      var (m6, a6) := Handle(m5, EnterPin(9999), cards);
      a6 == InvalidPin && m6.phase == Idle && m6.card == Some(card)
      && var (m7, _) := Handle(m6, InsertCard(card), cards);
      var (m8, _) := Handle(m7, EnterPin(1234), cards);
      var (m9, _) := Handle(m8, SelectOperation("WITHDRAW"), cards);
      var (m10, a10) := Handle(m9, Withdraw(20000), cards);
      a10 == InsufficientFunds && m10 == m4
  {
    TwentySevenHundred();
  }
}
