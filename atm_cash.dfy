/** The ATM's note dispensers, a chain of responsibility: each dispenser
    pays what it can in its own note and passes the rest on; the end of the
    chain reports what no one could pay. What the dispensers print is
    returned as a list of lines. */
module AtmCash {
  import opened Wrappers

  /** A dispenser for one note value and the dispenser after it, if any. */
  datatype Dispenser = Dispenser(note: int, next: Option<Dispenser>)

  /** "Dispensing count x note Note", or "Cannot dispense remaining amount". */
  datatype Line = Notes(count: int, note: int) | Remaining(amount: int)

  /** Every note value along the chain is positive. */
  predicate Positive(d: Dispenser)
    decreases d
  {
    d.note > 0 && (d.next.Some? ==> Positive(d.next.value))
  }

  /** The ATM's chain: 2000, then 500, then 100, then nothing. */
  function StandardChain(): (d: Dispenser)
    ensures Positive(d)
  {
    Dispenser(2000, Some(Dispenser(500, Some(Dispenser(100, None)))))
  }

  /** CashDispenser.dispense: the whole amount goes to the next dispenser;
      at the end of the chain a positive amount is reported as left over. */
  function PassOn(next: Option<Dispenser>, amount: int): (lines: seq<Line>)
    requires next.Some? ==> Positive(next.value)
    ensures LinesPositive(lines)
    decreases next
  {
    match next
    case Some(d) => Dispense(d, amount)
    case None => if amount > 0 then [Remaining(amount)] else []
  }

  /** dispense of one note dispenser: as many notes as fit, with the
      remainder passed on only when positive; an amount below the note
      value is passed on whole. */
  function Dispense(d: Dispenser, amount: int): (lines: seq<Line>)
    requires Positive(d)
    ensures LinesPositive(lines)
    decreases d
  {
    if amount >= d.note then
      NotesAndRest(amount, d.note);
      [Notes(amount / d.note, d.note)] + (if amount % d.note > 0 then PassOn(d.next, amount % d.note) else [])
    else PassOn(d.next, amount)
  }

  /** The money the lines hand out. */
  function Paid(lines: seq<Line>): int
  {
    if |lines| == 0 then 0
    else (match lines[0] case Notes(count, note) => count * note case Remaining(_) => 0) + Paid(lines[1..])
  }

  /** The money the lines report as not dispensable. */
  function Unpaid(lines: seq<Line>): int
  {
    if |lines| == 0 then 0
    else (match lines[0] case Notes(_, _) => 0 case Remaining(amount) => amount) + Unpaid(lines[1..])
  }

  lemma {:induction false} PaidAppend(a: seq<Line>, b: seq<Line>)
    ensures Paid(a + b) == Paid(a) + Paid(b) && Unpaid(a + b) == Unpaid(a) + Unpaid(b)
    decreases |a|
  {
    if |a| == 0 {
      assert a + b == b;
    } else {
      assert (a + b)[0] == a[0] && (a + b)[1..] == a[1..] + b;
      PaidAppend(a[1..], b);
    }
  }

  /** Every line reports a positive number of positive notes, or a
      positive leftover. */
  predicate LinesPositive(lines: seq<Line>)
  {
    forall i :: 0 <= i < |lines| ==>
      match lines[i]
      case Notes(count, note) => count > 0 && note > 0
      case Remaining(left) => left > 0
  }

  /** Euclidean division of an amount that holds at least one note. */
  lemma NotesAndRest(amount: int, note: int)
    requires 0 < note <= amount
    ensures amount / note >= 1 && 0 <= amount % note < note
    ensures amount / note * note + amount % note == amount
  {
  }

  /** No money is made or lost along the chain: what is paid plus what is
      reported left over is the amount asked for. Every line is a positive
      number of notes or a positive leftover. */
  lemma {:induction false} Conservation(d: Dispenser, amount: int)
    requires Positive(d) && amount >= 0
    ensures Paid(Dispense(d, amount)) + Unpaid(Dispense(d, amount)) == amount
    ensures LinesPositive(Dispense(d, amount))
    decreases d
  {
    if amount >= d.note {
      var q, r := amount / d.note, amount % d.note;
      NotesAndRest(amount, d.note);
      var rest := if r > 0 then PassOn(d.next, r) else [];
      if r > 0 {
        PassOnConservation(d.next, r);
      }
      PaidAppend([Notes(q, d.note)], rest);
      assert Paid([Notes(q, d.note)]) == q * d.note;
      assert Dispense(d, amount) == [Notes(q, d.note)] + rest;
    } else {
      PassOnConservation(d.next, amount);
    }
  }

  lemma {:induction false} PassOnConservation(next: Option<Dispenser>, amount: int)
    requires (next.Some? ==> Positive(next.value)) && amount >= 0
    ensures Paid(PassOn(next, amount)) + Unpaid(PassOn(next, amount)) == amount
    ensures LinesPositive(PassOn(next, amount))
    decreases next
  {
    if next.Some? {
      Conservation(next.value, amount);
    }
  }

  /** A chain asked for nothing, or for a negative amount, hands out and
      reports nothing. */
  lemma {:induction false} NothingForNothing(d: Dispenser, amount: int)
    requires Positive(d) && amount <= 0
    ensures Dispense(d, amount) == []
    decreases d
  {
    if d.next.Some? {
      NothingForNothing(d.next.value, amount);
    }
  }

  /** What one dispenser leaves over for the rest of the chain is what the
      rest leaves over from the amount modulo its note value, when that
      note value is a multiple of unit and the rest leaves over the amount
      modulo unit. */
  lemma {:induction false} LeftoverStep(d: Dispenser, unit: int, amount: int)
    requires Positive(d) && amount >= 0 && unit > 0 && d.note % unit == 0
    requires forall x :: 0 <= x < d.note ==> Unpaid(PassOn(d.next, x)) == x % unit
    ensures Unpaid(Dispense(d, amount)) == amount % unit
  {
    if amount >= d.note {
      var r := amount % d.note;
      var rest := if r > 0 then PassOn(d.next, r) else [];
      PaidAppend([Notes(amount / d.note, d.note)], rest);
      assert Dispense(d, amount) == [Notes(amount / d.note, d.note)] + rest;
      assert Unpaid(rest) == r % unit;
      ModOfMultiple(amount, d.note, unit);
    } else {
      assert Dispense(d, amount) == PassOn(d.next, amount);
    }
  }

  /** Reducing modulo a multiple of unit first does not change the
      remainder modulo unit. */
  lemma ModOfMultiple(amount: int, note: int, unit: int)
    requires amount >= 0 && note > 0 && unit > 0 && note % unit == 0
    ensures (amount % note) % unit == amount % unit
  {
    var k, q := note / unit, amount / note;
    assert note == unit * k;
    assert note * q == unit * (k * q);
    ModShift(amount, unit, k * q, amount % note);
  }

  lemma ModShift(a: int, unit: int, q: int, r: int)
    requires unit > 0 && a == unit * q + r && r >= 0
    ensures a % unit == r % unit
  {
    var qa, ma := a / unit, a % unit;
    var qr, mr := r / unit, r % unit;
    assert a == unit * qa + ma && 0 <= ma < unit;
    assert r == unit * qr + mr && 0 <= mr < unit;
    var k := qa - q - qr;
    assert unit * qa == unit * k + unit * q + unit * qr;
    assert unit * k == mr - ma;
    MultipleInRange(unit, k);
  }

  /** The only multiple of unit strictly between -unit and unit is 0. */
  lemma MultipleInRange(unit: int, k: int)
    requires unit > 0 && -unit < unit * k < unit
    ensures k == 0
  {
  }

  /** The 2000, 500, 100 chain pays the amount rounded down to a hundred
      and reports the last two digits as left over. */
  lemma StandardChainPays(amount: int)
    requires amount >= 0
    ensures Paid(Dispense(StandardChain(), amount)) == amount - amount % 100
    ensures Unpaid(Dispense(StandardChain(), amount)) == amount % 100
  {
    var d100 := Dispenser(100, None);
    var d500 := Dispenser(500, Some(d100));
    Conservation(StandardChain(), amount);
    forall x | 0 <= x < 100
      ensures Unpaid(PassOn(d100.next, x)) == x % 100
    {
    }
    forall x | 0 <= x < 500
      ensures Unpaid(PassOn(d500.next, x)) == x % 100
    {
      LeftoverStep(d100, 100, x);
    }
    forall x | 0 <= x < 2000
      ensures Unpaid(PassOn(StandardChain().next, x)) == x % 100
    {
      LeftoverStep(d500, 100, x);
    }
    LeftoverStep(StandardChain(), 100, amount);
  }

  /** 2700 is paid as one 2000 note, one 500 note and two 100 notes. */
  lemma TwentySevenHundred()
    ensures Dispense(StandardChain(), 2700) == [Notes(1, 2000), Notes(1, 500), Notes(2, 100)]
  {
  }
}
