/**
 * Apps billed by invoice: invoice_billing_rules.py (the rules) and invoice_billing.py (paying an invoice and the daily
 * renewal), over every run of days, renewals, payments and voids.
 */
module Billing {
  import opened Text
  import opened Dates

  const RENEW_DAYS := 3
  const GRACE_DAYS := 7

  datatype Status = Trialing | Active | PastDue | Suspended | Cancelled | Expired

  /** A subscription with its plan's price and billing period; `house` is one of QTT's own workspaces. */
  datatype Sub = Sub(byInvoice: bool, house: bool, status: Status, price: real, period: string, paidUntil: Option<Date>,
                     periodEnd: Date, cancelling: bool)
  {
    predicate Valid() {
      periodEnd.Valid() && (paidUntil.Some? ==> paidUntil.value.Valid())
    }

    /** The statuses renewal looks at. */
    predicate Running() {
      status == Trialing || status == Active || status == PastDue || status == Suspended
    }
  }

  datatype InvoiceStatus = Open | Paid | Void

  datatype Invoice = Invoice(status: InvoiceStatus, subs: set<string>)

  /** invoice_billing_rules.months_for, on a billing period in lower case. */
  function MonthsFor(period: string): nat {
    if period == "yearly" then 12 else 1
  }

  /** invoice_billing_rules.paid_through */
  function PaidThrough(paidUntil: Option<Date>, today: Date, months: nat): Date
    requires today.Valid() && (paidUntil.Some? ==> paidUntil.value.Valid())
  {
    var start := if paidUntil.Some? && !paidUntil.value.AtMost(today) then paidUntil.value else today;
    AddMonths(start, months)
  }

  datatype Todo = Bill | Suspend | Nothing

  /** invoice_billing_rules.next_step */
  function NextStep(s: Sub, hasOpen: bool, today: Date): Todo
    requires s.Valid() && today.Valid()
  {
    if !s.Running() || s.paidUntil.None? || s.price <= 0.0 then Nothing
    else
      var paid := s.paidUntil.value.Ordinal();
      if s.status != Suspended && hasOpen && today.Ordinal() > paid + GRACE_DAYS then Suspend
      else if !hasOpen && !s.cancelling && today.Ordinal() >= paid - RENEW_DAYS then Bill
      else Nothing
  }

  type Subs = map<string, Sub>

  type Invoices = map<nat, Invoice>

  /** invoice_billing.open_invoice */
  predicate HasOpen(invoices: Invoices, name: string) {
    exists i | i in invoices :: OpenFor(invoices, name, i)
  }

  predicate OpenFor(invoices: Invoices, name: string, i: nat) {
    i in invoices && invoices[i].status == Open && name in invoices[i].subs
  }

  /** One subscription on an invoice just paid. */
  function PaySub(s: Sub, today: Date): Sub
    requires s.Valid() && today.Valid()
  {
    if !s.byInvoice then s
    else
      var paid := PaidThrough(s.paidUntil, today, MonthsFor(s.period));
      s.(paidUntil := Some(paid),
         status := if s.status == Suspended || s.status == PastDue || s.status == Trialing then Active else s.status,
         periodEnd := if paid.AtMost(s.periodEnd) then s.periodEnd else paid)
  }

  function PaySubs(subs: Subs, names: set<string>, today: Date): (out: Subs)
    requires today.Valid() && forall n | n in subs :: subs[n].Valid()
    ensures out.Keys == subs.Keys
    ensures forall n | n in subs :: out[n] == if n in names then PaySub(subs[n], today) else subs[n]
  {
    map n | n in subs :: if n in names then PaySub(subs[n], today) else subs[n]
  }

  // ---- the state and what can happen to it ----

  datatype World = World(subs: Subs, invoices: Invoices, nextInvoice: nat, today: Date) {
    ghost predicate Valid() {
      && today.Valid() && (forall n | n in subs :: subs[n].Valid())
      && (forall i | i in invoices :: i < nextInvoice && invoices[i].subs <= subs.Keys)
    }
  }

  datatype Event =
    | NewDay(day: Date) | Renew(names: seq<string>) | Pay(invoice: nat) | VoidIt(invoice: nat)
    | Cancelling(name: string, yes: bool)

  ghost predicate Possible(w: World, e: Event) {
    match e
    case NewDay(day) => day.Valid() && w.today.AtMost(day)
    case Renew(names) => true
    case Pay(i) => i in w.invoices && w.invoices[i].status == Open
    case VoidIt(i) => i in w.invoices && w.invoices[i].status == Open
    case Cancelling(n, _) => n in w.subs
  }

  /** invoice_billing.invoice_period: a new open invoice for one subscription. */
  function InvoicePeriod(w: World, name: string): World {
    w.(invoices := w.invoices[w.nextInvoice := Invoice(Open, {name})], nextInvoice := w.nextInvoice + 1)
  }

  /** One turn of the renewal loop. */
  function RenewOne(w: World, name: string): World
    requires w.Valid()
  {
    if name !in w.subs || !w.subs[name].byInvoice || !w.subs[name].Running() || w.subs[name].house then w
    else match NextStep(w.subs[name], HasOpen(w.invoices, name), w.today)
      case Bill => InvoicePeriod(w, name)
      case Suspend => w.(subs := w.subs[name := w.subs[name].(status := Suspended)])
      case Nothing => w
  }

  function RenewAll(w: World, names: seq<string>): (out: World)
    requires w.Valid()
    ensures out.Valid()
  {
    if names == [] then w else RenewOne(RenewAll(w, names[..|names| - 1]), names[|names| - 1])
  }

  function Step(w: World, e: Event): World
    requires w.Valid() && Possible(w, e)
  {
    match e
    case NewDay(day) => w.(today := day)
    case Renew(names) => RenewAll(w, names)
    case Pay(i) => w.(invoices := w.invoices[i := w.invoices[i].(status := Paid)],
        subs := PaySubs(w.subs, w.invoices[i].subs, w.today))
    case VoidIt(i) => w.(invoices := w.invoices[i := w.invoices[i].(status := Void)])
    case Cancelling(n, yes) => w.(subs := w.subs[n := w.subs[n].(cancelling := yes)])
  }

  // ---- what renewal does ----

  /** An invoice-billed subscription, none of QTT's own, that costs something and has been paid until some day. */
  predicate Renewable(w: World, n: string) {
    n in w.subs && w.subs[n].byInvoice && !w.subs[n].house && w.subs[n].price > 0.0 && w.subs[n].paidUntil.Some?
    && (w.subs[n].status == Trialing || w.subs[n].status == Active || w.subs[n].status == PastDue
        || w.subs[n].status == Suspended)
  }

  ghost predicate Unpaid(w: World, n: string) {
    exists i :: i in w.invoices && w.invoices[i].status == Open && n in w.invoices[i].subs
  }

  /** On, with an open invoice, and more than seven days past the paid time. */
  ghost predicate Overdue(w: World, n: string)
    requires w.Valid()
  {
    Renewable(w, n) && w.subs[n].status != Suspended && Unpaid(w, n)
    && w.today.Ordinal() > w.subs[n].paidUntil.value.Ordinal() + 7
  }

  /** Not cancelling, without an open invoice, and at most three days before the paid time is up, or later. */
  ghost predicate Due(w: World, n: string)
    requires w.Valid()
  {
    Renewable(w, n) && !w.subs[n].cancelling && !Unpaid(w, n)
    && w.today.Ordinal() >= w.subs[n].paidUntil.value.Ordinal() - 3
  }

  /**
   * What a renewal of these subscriptions changes: the overdue ones are suspended, the due ones get one new open
   * invoice each, and nothing else changes.
   */
  ghost predicate Renewed(w: World, out: World, names: seq<string>)
    requires w.Valid()
  {
    && out.today == w.today && out.subs.Keys == w.subs.Keys
    && (forall n | n in w.subs ::
          out.subs[n] == w.subs[n].(status := if n in names && Overdue(w, n) then Suspended else w.subs[n].status))
    && Billed(w, out.invoices, names)
  }

  ghost predicate Billed(w: World, now: Invoices, names: seq<string>)
    requires w.Valid()
  {
    BilledOnly(w, now, names) && (forall n | n in names && Due(w, n) :: BilledFor(w, now, n)) && BilledOnce(w, now)
  }

  /** No two new invoices are the same. */
  ghost predicate BilledOnce(w: World, now: Invoices) {
    forall i, j | i in now && j in now && i !in w.invoices && j !in w.invoices && now[i] == now[j] :: i == j
  }

  /** The old invoices are as they were, and each new one is for a subscription that is due. */
  ghost predicate BilledOnly(w: World, now: Invoices, names: seq<string>)
    requires w.Valid()
  {
    && (forall i | i in w.invoices :: i in now && now[i] == w.invoices[i])
    && (forall i | i in now && i !in w.invoices :: exists n :: n in names && Due(w, n) && now[i] == Invoice(Open, {n}))
  }

  ghost predicate BilledFor(w: World, now: Invoices, n: string) {
    exists i :: i in now && i !in w.invoices && now[i] == Invoice(Open, {n})
  }

  ghost predicate Different(names: seq<string>) {
    forall j, k | 0 <= j < k < |names| :: names[j] != names[k]
  }

  lemma UnpaidStill(w: World, mid: World, names: seq<string>, n: string)
    requires w.Valid() && Renewed(w, mid, names) && n !in names
    ensures HasOpen(mid.invoices, n) <==> Unpaid(w, n)
  {
    if i :| i in w.invoices && w.invoices[i].status == Open && n in w.invoices[i].subs {
      assert OpenFor(mid.invoices, n, i);
    }
  }

  /** What a turn does to the state, by the subscription's name. */
  lemma TurnDoes(w: World, mid: World, names: seq<string>, n: string)
    requires w.Valid() && mid.Valid() && Renewed(w, mid, names) && n !in names
    ensures var out := RenewOne(mid, n);
            if Overdue(w, n) then out == mid.(subs := mid.subs[n := mid.subs[n].(status := Suspended)])
            else if Due(w, n) then out == InvoicePeriod(mid, n)
            else out == mid
  {
    UnpaidStill(w, mid, names, n);
    if n in w.subs { assert mid.subs[n] == w.subs[n]; }
  }

  lemma TurnSubs(w: World, mid: World, names: seq<string>, n: string)
    requires w.Valid() && mid.Valid() && Renewed(w, mid, names) && n !in names
    ensures var out := RenewOne(mid, n);
            && out.today == w.today && out.subs.Keys == w.subs.Keys
            && forall m | m in w.subs :: out.subs[m] == w.subs[m].(status :=
                 if m in names + [n] && Overdue(w, m) then Suspended else w.subs[m].status)
  {
    TurnDoes(w, mid, names, n);
  }

  lemma NobodyMore(w: World, now: Invoices, names: seq<string>, n: string)
    requires w.Valid() && Billed(w, now, names) && !Due(w, n)
    ensures Billed(w, now, names + [n])
  {
    assert forall m :: m in names + [n] <==> m in names || m == n;
  }

  lemma OthersBilled(w: World, now: Invoices, names: seq<string>, n: string, i: nat)
    requires w.Valid() && Billed(w, now, names) && n !in names && i in now && i !in w.invoices
    ensures now[i] != Invoice(Open, {n})
  {
    var m :| m in names && Due(w, m) && now[i] == Invoice(Open, {m});
    assert m in {m} && m !in {n};
  }

  lemma OneMoreBilled(w: World, now: Invoices, names: seq<string>, n: string, next: nat)
    requires w.Valid() && Billed(w, now, names) && Due(w, n) && n !in names && next !in now
    ensures Billed(w, now[next := Invoice(Open, {n})], names + [n])
  {
    MoreOnly(w, now, names, n, next);
    MoreFor(w, now, names, n, next);
    forall i | i in now && i !in w.invoices
      ensures now[i] != Invoice(Open, {n})
    {
      OthersBilled(w, now, names, n, i);
    }
    OnceMore(w, now, next, Invoice(Open, {n}));
  }

  lemma OnceMore(w: World, now: Invoices, next: nat, invoice: Invoice)
    requires BilledOnce(w, now) && next !in now && forall i | i in now && i !in w.invoices :: now[i] != invoice
    ensures BilledOnce(w, now[next := invoice])
  {
  }

  lemma MoreFor(w: World, now: Invoices, names: seq<string>, n: string, next: nat)
    requires w.Valid() && next !in now && next !in w.invoices
    requires forall m | m in names && Due(w, m) :: BilledFor(w, now, m)
    ensures forall m | m in names + [n] && Due(w, m) :: BilledFor(w, now[next := Invoice(Open, {n})], m)
  {
    var out := now[next := Invoice(Open, {n})];
    assert out[next] == Invoice(Open, {n}) && BilledFor(w, out, n);
    forall m | m in names && Due(w, m)
      ensures BilledFor(w, out, m)
    {
      StillBilled(w, now, next, out[next], m);
    }
  }

  lemma MoreOnly(w: World, now: Invoices, names: seq<string>, n: string, next: nat)
    requires w.Valid() && BilledOnly(w, now, names) && Due(w, n) && next !in now
    ensures BilledOnly(w, now[next := Invoice(Open, {n})], names + [n]) && next !in w.invoices
  {
    var out, more := now[next := Invoice(Open, {n})], names + [n];
    assert n in more && forall m | m in names :: m in more;
    forall i | i in out && i !in w.invoices
      ensures exists m :: m in more && Due(w, m) && out[i] == Invoice(Open, {m})
    {
      if i != next {
        var m :| m in names && Due(w, m) && now[i] == Invoice(Open, {m});
        assert m in more;
      }
    }
  }

  lemma StillBilled(w: World, now: Invoices, next: nat, invoice: Invoice, m: string)
    requires BilledFor(w, now, m) && next !in now
    ensures BilledFor(w, now[next := invoice], m)
  {
    var i :| i in now && i !in w.invoices && now[i] == Invoice(Open, {m});
    assert now[next := invoice][i] == Invoice(Open, {m});
  }

  lemma TurnRenews(w: World, mid: World, names: seq<string>, n: string)
    requires w.Valid() && mid.Valid() && Renewed(w, mid, names) && n !in names
    ensures Renewed(w, RenewOne(mid, n), names + [n])
  {
    TurnSubs(w, mid, names, n);
    TurnDoes(w, mid, names, n);
    if Due(w, n) {
      OneMoreBilled(w, mid.invoices, names, n, mid.nextInvoice);
    } else {
      NobodyMore(w, mid.invoices, names, n);
    }
  }

  /** A renewal changes exactly that. */
  lemma {:induction false} RenewExactly(w: World, names: seq<string>)
    requires w.Valid() && Different(names)
    ensures Renewed(w, RenewAll(w, names), names)
  {
    if names != [] {
      var k := |names| - 1;
      RenewExactly(w, names[..k]);
      TurnRenews(w, RenewAll(w, names[..k]), names[..k], names[k]);
      assert names[..k] + [names[k]] == names;
    }
  }

  // ---- the code ----

  class Ledger {
    var subs: Subs
    var invoices: Invoices
    var nextInvoice: nat
    var today: Date

    ghost function State(): World
      reads this
    {
      World(subs, invoices, nextInvoice, today)
    }

    method PayOne(name: string)
      requires today.Valid() && name in subs && subs[name].Valid()
      modifies `subs
      ensures subs == old(subs)[name := PaySub(old(subs)[name], today)]
      ensures var was, now := old(subs)[name], subs[name];
              if !was.byInvoice then now == was
              else
                var from := if was.paidUntil.Some? && !was.paidUntil.value.AtMost(today) then was.paidUntil.value
                    else today;
                var paid := AddMonths(from, if was.period == "yearly" then 12 else 1);
                && now == was.(paidUntil := Some(paid), status := now.status, periodEnd := now.periodEnd)
                && now.status == (if was.status == Cancelled || was.status == Expired then was.status else Active)
                && now.periodEnd == if paid.AtMost(was.periodEnd) then was.periodEnd else paid
    {
      var s := subs[name];
      if s.byInvoice {
        s := s.(paidUntil := Some(PaidThrough(s.paidUntil, today, MonthsFor(s.period))));
        if s.status == Suspended || s.status == PastDue || s.status == Trialing {
          s := s.(status := Active);
        }
        if !s.paidUntil.value.AtMost(s.periodEnd) {
          s := s.(periodEnd := s.paidUntil.value);
        }
      }
      subs := subs[name := s];
    }

    method PayEach(names: set<string>)
      requires today.Valid() && names <= subs.Keys && forall n | n in subs :: subs[n].Valid()
      modifies `subs
      ensures subs == PaySubs(old(subs), names, today)
    {
      var todo := names;
      ghost var done: set<string> := {};
      while todo != {}
        invariant done + todo == names && done !! todo
        invariant subs == PaySubs(old(subs), done, today)
        decreases todo
      {
        var name :| name in todo;
        todo := todo - {name};
        done := done + {name};
        PayOne(name);
      }
      assert done == names;
    }

    /** invoice_billing.on_invoice_update, as the invoice turns paid. */
    method OnInvoicePaid(i: nat)
      requires State().Valid() && i in invoices && invoices[i].status == Open
      modifies this
      ensures State() == Step(old(State()), Pay(i))
    {
      invoices := invoices[i := invoices[i].(status := Paid)];
      PayEach(invoices[i].subs);
    }

    /** invoice_billing.renew_daily over the subscriptions listed; a list names each once. */
    method RenewDaily(names: seq<string>)
      requires State().Valid()
      modifies this
      ensures State() == Step(old(State()), Renew(names))
      ensures Different(names) ==> Renewed(old(State()), State(), names)
    {
      for k := 0 to |names|
        invariant State() == RenewAll(old(State()), names[..k])
      {
        var name := names[k];
        assert names[..k + 1][..k] == names[..k];
        if name in subs && subs[name].byInvoice && subs[name].Running() && !subs[name].house {
          var step := NextStep(subs[name], HasOpen(invoices, name), today);
          if step == Bill {
            invoices := invoices[nextInvoice := Invoice(Open, {name})];
            nextInvoice := nextInvoice + 1;
          } else if step == Suspend {
            subs := subs[name := subs[name].(status := Suspended)];
          }
        }
      }
      assert names[..|names|] == names;
      if Different(names) { RenewExactly(old(State()), names); }
    }
  }

  // ---- over every run ----

  ghost predicate Run(start: World, events: seq<Event>, end: World)
    requires start.Valid()
    decreases |events|
  {
    if events == [] then start == end
    else
      Possible(start, events[0]) && Step(start, events[0]).Valid() && Run(Step(start, events[0]), events[1..], end)
  }

  lemma StepValid(w: World, e: Event)
    requires w.Valid() && Possible(w, e)
    ensures Step(w, e).Valid()
  {
    match e
    case NewDay(_) =>
    case Renew(_) =>
    case Pay(i) => forall n | n in w.subs ensures PaySub(w.subs[n],
        w.today).Valid() { PaySubLater(w.subs[n], w.today); }
    case VoidIt(_) =>
    case Cancelling(_, _) =>
  }

  /** No subscription is on two open invoices. */
  ghost predicate OneOpen(invoices: Invoices) {
    forall n, i, j | OpenFor(invoices, n, i) && OpenFor(invoices, n, j) :: i == j
  }

  /** Dates that may be missing: never taken away, never earlier. */
  predicate NotEarlier(was: Option<Date>, now: Option<Date>) {
    was.Some? ==> now.Some? && was.value.AtMost(now.value)
  }

  ghost predicate NothingBack(was: Subs, now: Subs) {
    && was.Keys == now.Keys
    && forall n | n in was :: NotEarlier(was[n].paidUntil, now[n].paidUntil)
        && was[n].periodEnd.AtMost(now[n].periodEnd)
  }

  /** A payment reaches at least 28 days past today and past what was paid before. */
  lemma PaySubLater(s: Sub, today: Date)
    requires s.Valid() && today.Valid()
    ensures var p := PaySub(s, today);
            && p.Valid() && NotEarlier(s.paidUntil, p.paidUntil) && s.periodEnd.AtMost(p.periodEnd)
            && (s.byInvoice ==>
                  && p.paidUntil.Some? && p.paidUntil.value.Ordinal() >= today.Ordinal() + 28
                  && (s.paidUntil.Some? ==> p.paidUntil.value.Ordinal() >= s.paidUntil.value.Ordinal() + 28)
                  && p.paidUntil.value.AtMost(p.periodEnd))
  {
    if s.byInvoice {
      var start := if s.paidUntil.Some? && !s.paidUntil.value.AtMost(today) then s.paidUntil.value else today;
      AddMonthsExact(start, MonthsFor(s.period));
      AddMonthsDays(start, MonthsFor(s.period));
      if s.paidUntil.Some? {
        OrdinalOrder(s.paidUntil.value, today);
        OrdinalOrder(today, s.paidUntil.value);
        OrdinalOrder(s.paidUntil.value, PaidThrough(s.paidUntil, today, MonthsFor(s.period)));
      }
    }
  }

  lemma RenewOneKeeps(w: World, name: string)
    requires w.Valid() && OneOpen(w.invoices)
    ensures OneOpen(RenewOne(w, name).invoices) && NothingBack(w.subs, RenewOne(w, name).subs)
  {
    var out := RenewOne(w, name);
    if out.invoices != w.invoices {
      assert !HasOpen(w.invoices, name);
      forall n, i | OpenFor(out.invoices, n, i)
        ensures OpenFor(w.invoices, n, i) || (n == name && i == w.nextInvoice)
      {
      }
    }
  }

  lemma {:induction false} RenewAllKeeps(w: World, names: seq<string>)
    requires w.Valid() && OneOpen(w.invoices)
    ensures OneOpen(RenewAll(w, names).invoices) && NothingBack(w.subs, RenewAll(w, names).subs)
  {
    if names != [] {
      RenewAllKeeps(w, names[..|names| - 1]);
      RenewOneKeeps(RenewAll(w, names[..|names| - 1]), names[|names| - 1]);
    }
  }

  lemma StepKeeps(w: World, e: Event)
    requires w.Valid() && Possible(w, e) && OneOpen(w.invoices)
    ensures OneOpen(Step(w, e).invoices) && NothingBack(w.subs, Step(w, e).subs)
  {
    var out := Step(w, e);
    match e
    case Renew(names) => RenewAllKeeps(w, names);
    case Pay(i) =>
      forall n | n in w.subs { PaySubLater(w.subs[n], w.today); }
      assert forall n, j | OpenFor(out.invoices, n, j) :: OpenFor(w.invoices, n, j);
    case VoidIt(i) =>
      assert forall n, j | OpenFor(out.invoices, n, j) :: OpenFor(w.invoices, n, j);
    case _ =>
  }

  /**
   * Over every run each subscription has at most one open invoice, and neither its paid time nor its period ever
   * moves back.
   */
  lemma {:induction false} RunKeeps(start: World, events: seq<Event>, end: World)
    requires start.Valid() && OneOpen(start.invoices) && Run(start, events, end)
    ensures end.Valid() && OneOpen(end.invoices) && NothingBack(start.subs, end.subs)
    decreases |events|
  {
    if events != [] {
      StepKeeps(start, events[0]);
      RunKeeps(Step(start, events[0]), events[1..], end);
    }
  }

  /** A turn of the loop leaves a subscription alone or suspends it for the reason given. */
  ghost predicate SuspendsFor(w: World, out: World, n: string) {
    && n in w.subs && n in out.subs && out.today == w.today && out.subs[n] == w.subs[n].(status := out.subs[n].status)
    && (out.subs[n].status != w.subs[n].status ==>
          && out.subs[n].status == Suspended && w.subs[n].paidUntil.Some?
          && 1 <= w.subs[n].paidUntil.value.month <= 12 && 1 <= w.today.month <= 12
          && w.today.Ordinal() > w.subs[n].paidUntil.value.Ordinal() + GRACE_DAYS && HasOpen(out.invoices, n))
    && (HasOpen(w.invoices, n) ==> HasOpen(out.invoices, n))
  }

  lemma RenewOneSuspends(w: World, name: string, n: string)
    requires w.Valid() && n in w.subs
    ensures SuspendsFor(w, RenewOne(w, name), n)
  {
    var out := RenewOne(w, name);
    if HasOpen(w.invoices, n) {
      var i :| i in w.invoices && OpenFor(w.invoices, n, i);
      assert OpenFor(out.invoices, n, i);
    }
  }

  lemma {:induction false} RenewAllSuspends(w: World, names: seq<string>, n: string)
    requires w.Valid() && n in w.subs
    ensures SuspendsFor(w, RenewAll(w, names), n)
  {
    if names != [] {
      RenewAllSuspends(w, names[..|names| - 1], n);
      RenewOneSuspends(RenewAll(w, names[..|names| - 1]), names[|names| - 1], n);
    }
  }

  /** Only renewal suspends, and only with an open invoice more than seven days past the paid time. */
  lemma SuspendedOnlyUnpaid(w: World, e: Event, n: string)
    requires w.Valid() && Possible(w, e) && n in w.subs && n in Step(w, e).subs
    requires w.subs[n].status != Suspended && Step(w, e).subs[n].status == Suspended
    ensures e.Renew? && w.subs[n].paidUntil.Some?
    ensures w.today.Ordinal() > w.subs[n].paidUntil.value.Ordinal() + 7 && HasOpen(Step(w, e).invoices, n)
  {
    if e.Renew? { RenewAllSuspends(w, e.names, n); }
  }

  /**
   * Paying turns an app back on: unless it was cancelled or has expired it is active, it is paid for at least 28 days
   * from today, and until three days before that time is up renewal neither bills nor suspends it.
   */
  lemma PaymentTurnsOn(w: World, i: nat, n: string, day: Date, hasOpen: bool)
    requires w.Valid() && Possible(w, Pay(i)) && n in w.invoices[i].subs && w.subs[n].byInvoice && w.subs[n].Running()
    requires day.Valid() && day.Ordinal() < w.today.Ordinal() + 28 - 3
    ensures var s := Step(w, Pay(i)).subs[n];
            && s.Valid() && s.status == Active && s.paidUntil.Some?
                && s.paidUntil.value.Ordinal() >= w.today.Ordinal() + 28
            && NextStep(s, hasOpen, day) == Nothing
  {
    PaySubLater(w.subs[n], w.today);
  }
}
