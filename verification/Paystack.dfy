/** What Paystack's webhook events do to the companies' subscriptions. */
module Paystack {
  import opened Common

  datatype Plan = Free | Starter | Pro

  datatype Status = Active | PastDue | Canceled

  datatype Subscription = Subscription(
    company: string,
    plan: Plan,
    status: Status,
    currentPeriodEnd: Option<int>,
    cancelAtPeriodEnd: bool,
    customerCode: Option<string>,
    code: Option<string>,
    lastReminderAt: Option<int>)

  /** The plan codes the deployment is configured with. */
  datatype Config = Config(starterCode: Option<string>, proCode: Option<string>)

  /** The subscriptions table, the references marked as processed, and the companies that exist. */
  datatype State = State(subs: seq<Subscription>, marks: set<string>, companies: set<string>)

  /** An event, or one of the two things that happen to the same state besides: a company is given its free
    * subscription, and a mark is forgotten (it is kept for a day, in a cache that may also fail to keep it). */
  datatype Event =
    | ChargeSuccess(reference: string, chargedCode: Option<string>)
    | SubscriptionCreate(
        company: Option<string>, customerCompany: Option<string>, planCode: Option<string>, customerCode: string,
        code: string, nextPaymentDate: Option<int>)
    | NotRenew(code: string)
    | Disable(code: string)
    | InvoiceUpdate(code: string, paid: bool, fetched: Option<Option<int>>)
    | InvoicePaymentFailed(chargedCode: Option<string>)
    | Ignored
    | Onboarded(newCompany: string)
    | MarkForgotten(reference: string)

  predicate Blank(text: string) {
    forall c <- text :: c in {' ', '\t', '\n', '\r'}
  }

  // ---- Lookups ----

  /** The first row with that provider code. */
  function RowOfCode(subs: seq<Subscription>, code: string): (i: nat)
    ensures i <= |subs|
    ensures i < |subs| ==> subs[i].code == Some(code)
    ensures forall k :: 0 <= k < i ==> subs[k].code != Some(code)
  {
    if subs == [] then 0
    else
      var i := RowOfCode(subs[..|subs| - 1], code);
      if i < |subs| - 1 || subs[|subs| - 1].code == Some(code) then i else |subs|
  }

  function RowOfCompany(subs: seq<Subscription>, company: string): (i: nat)
    ensures i <= |subs|
    ensures i < |subs| ==> subs[i].company == company
    ensures forall k :: 0 <= k < i ==> subs[k].company != company
  {
    if subs == [] then 0
    else
      var i := RowOfCompany(subs[..|subs| - 1], company);
      if i < |subs| - 1 || subs[|subs| - 1].company == company then i else |subs|
  }

  /** A blank code finds nothing. */
  function Find(subs: seq<Subscription>, code: string): (row: Option<nat>)
    ensures row.Some? ==> row.value < |subs| && subs[row.value].code == Some(code)
  {
    if Blank(code) || RowOfCode(subs, code) == |subs| then None else Some(RowOfCode(subs, code))
  }

  function MapPlanCodeToPlan(c: Config, planCode: Option<string>): Option<Plan> {
    if planCode.None? || planCode.value == "" then None
    else if planCode == c.starterCode then Some(Starter)
    else if planCode == c.proCode then Some(Pro)
    else None
  }

  // ---- What each event does ----

  function Charged(s: State, reference: string, chargedCode: Option<string>): State {
    if chargedCode.None? || chargedCode.value == "" then s
    else if reference != "" && reference in s.marks then s
    else
      var s' := if reference == "" then s else s.(marks := s.marks + {reference});
      match Find(s.subs, chargedCode.value)
      case None => s'
      case Some(i) =>
        if s.subs[i].status == PastDue then s'.(subs := s.subs[i := s.subs[i].(status := Active)]) else s'
  }

  function CompanyOf(e: Event): Option<string>
    requires e.SubscriptionCreate?
  {
    if e.company.Some? then e.company else e.customerCompany
  }

  /** A create event that gets as far as recording its code with its company. */
  predicate Records(c: Config, s: State, e: Event) {
    && e.SubscriptionCreate?
    && CompanyOf(e).Some? && !Blank(CompanyOf(e).value)
    && MapPlanCodeToPlan(c, e.planCode).Some?
    && !Blank(e.code) && Find(s.subs, e.code).None?
    && (RowOfCompany(s.subs, CompanyOf(e).value) < |s.subs| || CompanyOf(e).value in s.companies)
  }

  /** The company's row is overwritten, or inserted when it has none. */
  function Created(c: Config, s: State, e: Event): State
    requires e.SubscriptionCreate?
  {
    if !Records(c, s, e) then s
    else
      var company := CompanyOf(e).value;
      var plan := MapPlanCodeToPlan(c, e.planCode).value;
      var i := RowOfCompany(s.subs, company);
      if i < |s.subs| then
        s.(subs := s.subs[i := s.subs[i].(
           plan := plan, status := Active, currentPeriodEnd := e.nextPaymentDate,
           customerCode := Some(e.customerCode), code := Some(e.code), lastReminderAt := None)])
      else
        s.(subs := s.subs + [Subscription(
             company, plan, Active, e.nextPaymentDate, false, Some(e.customerCode), Some(e.code), None)])
  }

  /** A change to the row that carries the code, if there is one. */
  function Changed(s: State, code: string, change: Subscription -> Subscription): State {
    match Find(s.subs, code)
    case None => s
    case Some(i) => s.(subs := s.subs[i := change(s.subs[i])])
  }

  function WillNotRenew(sub: Subscription): Subscription {
    sub.(cancelAtPeriodEnd := true)
  }

  function Disabled(sub: Subscription): Subscription {
    if sub.plan == Free && sub.status == Canceled then sub
    else sub.(plan := Free, status := Canceled, cancelAtPeriodEnd := false)
  }

  function Renewed(nextPaymentDate: Option<int>): Subscription -> Subscription {
    (sub: Subscription) =>
      sub.(currentPeriodEnd := if nextPaymentDate.Some? then nextPaymentDate else sub.currentPeriodEnd,
           status := Active, cancelAtPeriodEnd := false)
  }

  function Overdue(sub: Subscription): Subscription {
    sub.(status := PastDue)
  }

  function Onboard(s: State, company: string): State {
    if Blank(company) || company !in s.companies || RowOfCompany(s.subs, company) < |s.subs| then s
    else s.(subs := s.subs + [Subscription(company, Free, Active, None, false, None, None, None)])
  }

  function Handled(c: Config, s: State, e: Event): State {
    match e
    case ChargeSuccess(reference, code) => Charged(s, reference, code)
    case SubscriptionCreate(_, _, _, _, _, _) => Created(c, s, e)
    case NotRenew(code) => Changed(s, code, WillNotRenew)
    case Disable(code) => Changed(s, code, Disabled)
    case InvoiceUpdate(code, paid, fetched) =>
      if !paid || fetched.None? then s else Changed(s, code, Renewed(fetched.value))
    case InvoicePaymentFailed(code) => if code.None? then s else Changed(s, code.value, Overdue)
    case Ignored => s
    case Onboarded(company) => Onboard(s, company)
    case MarkForgotten(reference) => s.(marks := s.marks - {reference})
  }

  function Run(c: Config, s: State, events: seq<Event>): State {
    if events == [] then s else Handled(c, Run(c, s, events[..|events| - 1]), events[|events| - 1])
  }

  // ---- The handler ----

  class PaystackWebhookHandlerService {
    const config: Config
    var subs: seq<Subscription>
    var marks: set<string>
    const companies: set<string>

    constructor (config: Config, companies: set<string>)
      ensures this.config == config && this.companies == companies && subs == [] && marks == {}
    {
      this.config, this.companies, subs, marks := config, companies, [], {};
    }

    ghost function Now(): State
      reads this
    {
      State(subs, marks, companies)
    }

    /** One query: the first match, row by row. */
    method GetByPaystackSubscriptionCode(code: string) returns (row: Option<nat>)
      ensures row == Find(subs, code)
    {
      if Blank(code) {
        return None;
      }
      var i := 0;
      while i < |subs| && subs[i].code != Some(code)
        invariant i <= |subs|
        invariant forall k :: 0 <= k < i ==> subs[k].code != Some(code)
      {
        i := i + 1;
      }
      return if i < |subs| then Some(i) else None;
    }

    method HandleChargeSuccess(reference: string, chargedCode: Option<string>)
      modifies this`subs, this`marks
      ensures Now() == Charged(old(Now()), reference, chargedCode)
    {
      if chargedCode.None? || chargedCode.value == "" {
        return;
      }
      var alreadyProcessed := reference != "" && reference in marks;
      if alreadyProcessed {
        return;
      }
      if reference != "" {
        marks := marks + {reference};
      }
      var row := GetByPaystackSubscriptionCode(chargedCode.value);
      if row.None? {
        return;
      }
      var sub := subs[row.value];
      if sub.status == PastDue {
        sub := sub.(status := Active);
      }
      subs := subs[row.value := sub];
    }

    method HandleSubscriptionCreate(e: Event)
      requires e.SubscriptionCreate?
      modifies this`subs
      ensures Now() == Created(config, old(Now()), e)
    {
      var company := if e.company.Some? then e.company else e.customerCompany;
      var plan := MapPlanCodeToPlan(config, e.planCode);
      if company.None? || company.value == "" || plan.None? {
        return;
      }
      var existing := GetByPaystackSubscriptionCode(e.code);
      if existing.Some? {
        return;
      }
      UpdateFromPaystackSubscription(company.value, e.customerCode, e.code, plan.value, Active, e.nextPaymentDate);
    }

    /** Blank arguments and an insert without a company throw; the handler's wrapper swallows what is thrown. */
    method UpdateFromPaystackSubscription(
      company: string, customerCode: string, code: string, plan: Plan, status: Status, currentPeriodEnd: Option<int>)
      modifies this`subs
      ensures var i := RowOfCompany(old(subs), company);
              subs ==
              if Blank(company) || Blank(code) then old(subs)
              else if i < |old(subs)| then
                old(subs)[i := old(subs)[i].(plan := plan, status := status, currentPeriodEnd := currentPeriodEnd,
                                             customerCode := Some(customerCode), code := Some(code),
                                             lastReminderAt := None)]
              else if company in companies then
                old(subs) + [Subscription(
                  company, plan, status, currentPeriodEnd, false, Some(customerCode), Some(code), None)]
              else old(subs)
    {
      if Blank(company) || Blank(code) {
        return;
      }
      var i := RowOfCompany(subs, company);
      if i == |subs| {
        if company in companies {
          subs := subs + [Subscription(
                            company, plan, status, currentPeriodEnd, false, Some(customerCode), Some(code), None)];
        }
        return;
      }
      var sub := subs[i];
      sub := sub.(plan := plan);
      sub := sub.(status := status);
      sub := sub.(currentPeriodEnd := currentPeriodEnd);
      sub := sub.(customerCode := Some(customerCode));
      sub := sub.(code := Some(code));
      sub := sub.(lastReminderAt := None);
      subs := subs[i := sub];
    }

    method HandleSubscriptionNotRenew(code: string)
      modifies this`subs
      ensures Now() == Changed(old(Now()), code, WillNotRenew)
    {
      var row := GetByPaystackSubscriptionCode(code);
      if row.Some? {
        subs := subs[row.value := subs[row.value].(cancelAtPeriodEnd := true)];
      }
    }

    method HandleSubscriptionDisable(code: string)
      modifies this`subs
      ensures Now() == Changed(old(Now()), code, Disabled)
    {
      var row := GetByPaystackSubscriptionCode(code);
      if row.None? {
        return;
      }
      var sub := subs[row.value];
      if sub.plan == Free && sub.status == Canceled {
        return;
      }
      sub := sub.(plan := Free);
      sub := sub.(status := Canceled);
      sub := sub.(cancelAtPeriodEnd := false);
      subs := subs[row.value := sub];
    }

    /** `fetched` is Paystack's answer to the query for the subscription, or None when the query fails. */
    method HandleInvoiceUpdate(code: string, paid: bool, fetched: Option<Option<int>>)
      modifies this`subs
      ensures Now() == Handled(config, old(Now()), InvoiceUpdate(code, paid, fetched))
    {
      if !paid {
        return;
      }
      var row := GetByPaystackSubscriptionCode(code);
      if row.None? || fetched.None? {
        return;
      }
      var sub := subs[row.value];
      if fetched.value.Some? {
        sub := sub.(currentPeriodEnd := fetched.value);
      }
      sub := sub.(status := Active);
      sub := sub.(cancelAtPeriodEnd := false);
      subs := subs[row.value := sub];
    }

    method MarkPastDue(code: string)
      modifies this`subs
      ensures Now() == Changed(old(Now()), code, Overdue)
    {
      var row := GetByPaystackSubscriptionCode(code);
      if row.None? || subs[row.value].status == PastDue {
        return;
      }
      subs := subs[row.value := subs[row.value].(status := PastDue)];
    }

    method Handle(e: Event)
      requires !e.Onboarded? && !e.MarkForgotten?
      modifies this`subs, this`marks
      ensures Now() == Handled(config, old(Now()), e)
    {
      match e
      case ChargeSuccess(reference, code) => HandleChargeSuccess(reference, code);
      case SubscriptionCreate(_, _, _, _, _, _) => HandleSubscriptionCreate(e);
      case NotRenew(code) => HandleSubscriptionNotRenew(code);
      case Disable(code) => HandleSubscriptionDisable(code);
      case InvoiceUpdate(code, paid, fetched) => HandleInvoiceUpdate(code, paid, fetched);
      case InvoicePaymentFailed(code) =>
        if code.Some? && code.value != "" {
          MarkPastDue(code.value);
        }
      case _ =>
    }
  }

  // ---- Each code belongs to one company ----

  ghost predicate CodesInv(s: State) {
    && (forall i, j :: 0 <= i < j < |s.subs| ==> s.subs[i].company != s.subs[j].company)
    && (forall i, j :: 0 <= i < j < |s.subs| && s.subs[i].code.Some? ==> s.subs[i].code != s.subs[j].code)
  }

  /** A row changed in anything but its company and code. */
  lemma ChangedKeepsCodes(s: State, code: string, change: Subscription -> Subscription)
    requires CodesInv(s) && forall sub :: change(sub).company == sub.company && change(sub).code == sub.code
    ensures CodesInv(Changed(s, code, change))
  {
  }

  lemma CreatedKeepsCodes(c: Config, s: State, e: Event)
    requires CodesInv(s) && e.SubscriptionCreate?
    ensures CodesInv(Created(c, s, e))
  {
    hide MapPlanCodeToPlan;
    if Records(c, s, e) {
      assert RowOfCode(s.subs, e.code) == |s.subs|;
      assert forall k :: 0 <= k < |s.subs| ==> s.subs[k].code != Some(e.code);
    }
  }

  lemma HandledKeepsCodes(c: Config, s: State, e: Event)
    requires CodesInv(s)
    ensures CodesInv(Handled(c, s, e))
  {
    match e
    case SubscriptionCreate(_, _, _, _, _, _) => CreatedKeepsCodes(c, s, e);
    case NotRenew(code) => ChangedKeepsCodes(s, code, WillNotRenew);
    case Disable(code) => ChangedKeepsCodes(s, code, Disabled);
    case InvoiceUpdate(code, _, fetched) =>
      if fetched.Some? {
        ChangedKeepsCodes(s, code, Renewed(fetched.value));
      }
    case InvoicePaymentFailed(code) =>
      if code.Some? {
        ChangedKeepsCodes(s, code.value, Overdue);
      }
    case _ =>
  }

  /** In every state any run of events leads to, a subscription code is recorded by at most one company. */
  lemma {:induction false} CodeOfOneCompany(c: Config, companies: set<string>, events: seq<Event>)
    ensures CodesInv(Run(c, State([], {}, companies), events))
  {
    if events != [] {
      CodeOfOneCompany(c, companies, events[..|events| - 1]);
      HandledKeepsCodes(c, Run(c, State([], {}, companies), events[..|events| - 1]), events[|events| - 1]);
    }
  }

  // ---- What each event leaves ----

  /** Blank is empty, or nothing but blanks, tabs and line ends. */
  lemma BlankExactly(text: string)
    ensures Blank(text) <==>
            forall k :: 0 <= k < |text| ==> text[k] == ' ' || text[k] == '\t' || text[k] == '\n' || text[k] == '\r'
  {
    assert forall k :: 0 <= k < |text| ==> text[k] in text;
  }

  lemma PlanCodeExactly(c: Config, planCode: Option<string>, plan: Plan)
    ensures MapPlanCodeToPlan(c, planCode) == Some(plan) <==>
            planCode.Some? && planCode.value != "" &&
            match plan
            case Free => false
            case Starter => planCode == c.starterCode
            case Pro => planCode == c.proCode && planCode != c.starterCode
  {
  }

  lemma FoundExactly(s: State, code: string, i: nat)
    requires CodesInv(s)
    ensures Find(s.subs, code) == Some(i) <==> !Blank(code) && i < |s.subs| && s.subs[i].code == Some(code)
    ensures Find(s.subs, code) == None <==>
            Blank(code) || forall k :: 0 <= k < |s.subs| ==> s.subs[k].code != Some(code)
  {
  }

  /** A subscription charge that is not a known repeat marks its reference and recovers the row of its code, if that is
    * past due; any other charge does nothing. */
  lemma ChargeExactly(c: Config, s: State, reference: string, code: Option<string>, i: nat)
    requires CodesInv(s)
    ensures var s' := Handled(c, s, ChargeSuccess(reference, code));
            if code.None? || code.value == "" || (reference != "" && reference in s.marks) then s' == s
            else
              && s'.marks == (if reference == "" then s.marks else s.marks + {reference})
              && s'.companies == s.companies
              && (!Blank(code.value) && i < |s.subs| && s.subs[i].code == code ==>
                    s'.subs
                    == if s.subs[i].status == PastDue then s.subs[i := s.subs[i].(status := Active)] else s.subs)
              && ((forall k :: 0 <= k < |s.subs| ==> s.subs[k].code != code) ==> s'.subs == s.subs)
  {
    if code.Some? {
      FoundExactly(s, code.value, i);
    }
    hide Find, Blank;
  }

  /** What each of the other events makes of the row that carries its code; without such a row it does nothing. */
  lemma RowEventsExactly(c: Config, s: State, code: string, i: nat)
    requires CodesInv(s) && !Blank(code) && i < |s.subs| && s.subs[i].code == Some(code)
    ensures var sub := s.subs[i];
            && Handled(c, s, NotRenew(code)) == s.(subs := s.subs[i := sub.(cancelAtPeriodEnd := true)])
            && Handled(c, s, Disable(code))
               == s.(subs := s.subs[i :=
                     if sub.plan == Free && sub.status == Canceled then sub
                     else sub.(plan := Free, status := Canceled, cancelAtPeriodEnd := false)])
            && Handled(c, s, InvoicePaymentFailed(Some(code))) == s.(subs := s.subs[i := sub.(status := PastDue)])
  {
    FoundExactly(s, code, i);
    hide Find, Blank;
  }

  /** A paid invoice whose query is answered makes the row ACTIVE, withdraws a planned cancellation and takes over the
    * next payment date, if there is one. */
  lemma InvoiceExactly(c: Config, s: State, code: string, i: nat, fetched: Option<Option<int>>)
    requires CodesInv(s) && !Blank(code) && i < |s.subs| && s.subs[i].code == Some(code)
    ensures Handled(c, s, InvoiceUpdate(code, false, fetched)) == s
    ensures Handled(c, s, InvoiceUpdate(code, true, None)) == s
    ensures fetched.Some? ==>
              var sub := s.subs[i];
              Handled(c, s, InvoiceUpdate(code, true, fetched))
              == s.(subs := s.subs[i :=
                    sub.(status := Active, cancelAtPeriodEnd := false,
                         currentPeriodEnd := if fetched.value.Some? then fetched.value else sub.currentPeriodEnd)])
  {
    FoundExactly(s, code, i);
    hide Find, Blank;
  }

  /** Events on a code nobody has recorded, or on none, leave the whole state alone, marks of charges aside. */
  lemma UnknownCodeExactly(c: Config, s: State, e: Event)
    requires e.NotRenew? || e.Disable? || e.InvoiceUpdate? || e.InvoicePaymentFailed?
    requires forall i :: 0 <= i < |s.subs| && s.subs[i].code.Some? ==> s.subs[i].code != CodeOf(e)
    ensures Handled(c, s, e) == s
  {
  }

  /** A create is recorded if and only if it names a company, on the subscription or else on the customer, that
    * exists or has a row, a configured plan, and a code that nobody has recorded. */
  lemma RecordsExactly(c: Config, s: State, e: Event)
    requires CodesInv(s) && e.SubscriptionCreate?
    ensures var company := if e.company.Some? then e.company else e.customerCompany;
            Records(c, s, e) <==>
            && company.Some? && !Blank(company.value) && !Blank(e.code)
            && e.planCode.Some? && e.planCode.value != ""
            && (e.planCode == c.starterCode || e.planCode == c.proCode)
            && (forall k :: 0 <= k < |s.subs| ==> s.subs[k].code != Some(e.code))
            && (company.value in s.companies || exists k :: 0 <= k < |s.subs| && s.subs[k].company == company.value)
  {
    FoundExactly(s, e.code, 0);
    var company := CompanyOf(e);
    if company.Some? {
      var i := RowOfCompany(s.subs, company.value);
      assert i < |s.subs| <==> exists k :: 0 <= k < |s.subs| && s.subs[k].company == company.value;
    }
    hide Find, Blank;
  }

  /** The company's row gets the plan, the dates and both codes and is ACTIVE again, a planned cancellation staying
    * as it was; without a row one is inserted. A create that is not recorded does nothing. */
  lemma CreateExactly(c: Config, s: State, e: Event, i: nat)
    requires CodesInv(s) && e.SubscriptionCreate?
    ensures !Records(c, s, e) ==> Handled(c, s, e) == s
    ensures Records(c, s, e) ==>
              var company := (if e.company.Some? then e.company else e.customerCompany).value;
              var plan := if e.planCode == c.starterCode then Starter else Pro;
              && (i < |s.subs| && s.subs[i].company == company ==>
                    var sub := s.subs[i];
                    Handled(c, s, e)
                    == s.(subs := s.subs[i :=
                          Subscription(company, plan, Active, e.nextPaymentDate, sub.cancelAtPeriodEnd,
                                       Some(e.customerCode), Some(e.code), None)]))
              && ((forall k :: 0 <= k < |s.subs| ==> s.subs[k].company != company) ==>
                    Handled(c, s, e)
                    == s.(subs := s.subs + [Subscription(company, plan, Active, e.nextPaymentDate, false,
                                                         Some(e.customerCode), Some(e.code), None)]))
  {
    if Records(c, s, e) {
      var company := CompanyOf(e).value;
      var k := RowOfCompany(s.subs, company);
      assert i < |s.subs| && s.subs[i].company == company ==> k == i;
    }
    hide Find, Blank;
  }

  lemma OnboardExactly(c: Config, s: State, company: string)
    ensures var s' := Handled(c, s, Onboarded(company));
            if Blank(company) || company !in s.companies
               || (exists k :: 0 <= k < |s.subs| && s.subs[k].company == company) then s' == s
            else s' == s.(subs := s.subs + [Subscription(company, Free, Active, None, false, None, None, None)])
  {
    var k := RowOfCompany(s.subs, company);
    assert k < |s.subs| <==> exists k :: 0 <= k < |s.subs| && s.subs[k].company == company;
  }

  // ---- Repeats ----

  lemma {:induction false} SameCodesFindTheSame(a: seq<Subscription>, b: seq<Subscription>, code: string)
    requires |a| == |b| && forall k :: 0 <= k < |a| ==> a[k].code == b[k].code
    ensures RowOfCode(a, code) == RowOfCode(b, code)
  {
    if a != [] {
      SameCodesFindTheSame(a[..|a| - 1], b[..|b| - 1], code);
    }
  }

  lemma ChangingTwice(s: State, code: string, change: Subscription -> Subscription)
    requires forall sub :: change(sub).code == sub.code && change(change(sub)) == change(sub)
    ensures Changed(Changed(s, code, change), code, change) == Changed(s, code, change)
  {
    SameCodesFindTheSame(s.subs, Changed(s, code, change).subs, code);
  }

  /** The guard under which an event has nothing left to do, kind by kind. */
  predicate Settled(c: Config, s: State, e: Event) {
    match e
    case ChargeSuccess(reference, code) =>
      || code.None? || code.value == ""
      || reference in s.marks - {""}
      || (reference == "" && RowHas(s.subs, code.value, (sub: Subscription) => sub.status != PastDue))
    case SubscriptionCreate(_, _, _, _, _, _) => !Records(c, s, e)
    case NotRenew(code) => RowHas(s.subs, code, (sub: Subscription) => sub.cancelAtPeriodEnd)
    case Disable(code) => RowHas(s.subs, code, (sub: Subscription) => sub.plan == Free && sub.status == Canceled)
    case InvoiceUpdate(code, paid, fetched) =>
      || !paid || fetched.None?
      || RowHas(s.subs, code, (sub: Subscription) =>
                  sub.status == Active && !sub.cancelAtPeriodEnd
                  && (fetched.value.Some? ==> sub.currentPeriodEnd == fetched.value))
    case InvoicePaymentFailed(code) =>
      code.None? || RowHas(s.subs, code.value, (sub: Subscription) => sub.status == PastDue)
    case Ignored => true
    case Onboarded(company) =>
      Blank(company) || company !in s.companies || RowOfCompany(s.subs, company) < |s.subs|
    case MarkForgotten(reference) => reference !in s.marks
  }

  /** The code finds no row, or one with the property. */
  predicate RowHas(subs: seq<Subscription>, code: string, property: Subscription -> bool) {
    match Find(subs, code)
    case None => true
    case Some(i) => property(subs[i])
  }

  lemma ChangesExactly(s: State, code: string, change: Subscription -> Subscription)
    ensures Changed(s, code, change) == s <==> RowHas(s.subs, code, sub => change(sub) == sub)
  {
    match Find(s.subs, code)
    case None =>
    case Some(i) => assert Changed(s, code, change).subs[i] == change(s.subs[i]);
  }

  lemma ChargeChangesExactly(c: Config, s: State, reference: string, code: Option<string>)
    ensures Charged(s, reference, code) == s <==> Settled(c, s, ChargeSuccess(reference, code))
  {
    var s' := Charged(s, reference, code);
    if code.Some? && code.value != "" && reference !in s.marks - {""} {
      if reference != "" {
        assert reference in s'.marks;
      } else if Find(s.subs, code.value).Some? {
        var i := Find(s.subs, code.value).value;
        assert s.subs[i].status == PastDue ==> s'.subs[i].status == Active;
      }
    }
  }

  lemma CreateChangesExactly(c: Config, s: State, e: Event)
    requires e.SubscriptionCreate?
    ensures Created(c, s, e) == s <==> !Records(c, s, e)
  {
    if Records(c, s, e) {
      RecordedIsFound(c, s, e);
    }
  }

  /** An event, first or repeated and whenever it comes, changes nothing if and only if its guard says so. */
  lemma EventChangesNothingExactly(c: Config, s: State, e: Event)
    ensures Handled(c, s, e) == s <==> Settled(c, s, e)
  {
    hide Find, Records, Charged, Created;
    match e
    case ChargeSuccess(reference, code) => ChargeChangesExactly(c, s, reference, code);
    case SubscriptionCreate(_, _, _, _, _, _) => CreateChangesExactly(c, s, e);
    case NotRenew(code) => ChangesExactly(s, code, WillNotRenew);
    case Disable(code) => ChangesExactly(s, code, Disabled);
    case InvoiceUpdate(code, _, fetched) =>
      if fetched.Some? {
        ChangesExactly(s, code, Renewed(fetched.value));
      }
    case InvoicePaymentFailed(code) =>
      if code.Some? {
        ChangesExactly(s, code.value, Overdue);
      }
    case Onboarded(company) => OnboardChangesExactly(s, company);
    case _ =>
  }

  lemma OnboardChangesExactly(s: State, company: string)
    ensures Onboard(s, company) == s
            <==> Blank(company) || company !in s.companies || RowOfCompany(s.subs, company) < |s.subs|
  {
    if Onboard(s, company) != s {
      assert |Onboard(s, company).subs| == |s.subs| + 1;
    }
  }

  /** So a repeat changes nothing, after whatever events have come in between, if and only if the guard holds then. */
  lemma LateRepeatChangesNothingExactly(c: Config, s: State, e: Event, between: seq<Event>)
    ensures var s' := Run(c, Handled(c, s, e), between);
            Handled(c, s', e) == s' <==> Settled(c, s', e)
  {
    EventChangesNothingExactly(c, Run(c, Handled(c, s, e), between), e);
  }

  /** Every handler is idempotent: an event delivered twice in a row does what it does once. An invoice event carries
    * Paystack's answer with it, so this supposes that the second query is answered as the first was. */
  lemma HandlersAreIdempotent(c: Config, s: State, e: Event)
    ensures Handled(c, Handled(c, s, e), e) == Handled(c, s, e)
  {
    match e
    case ChargeSuccess(_, code) =>
      if code.Some? {
        SameCodesFindTheSame(s.subs, Handled(c, s, e).subs, code.value);
      }
    case SubscriptionCreate(_, _, _, _, _, _) =>
      if Records(c, s, e) {
        RecordedIsFound(c, s, e);
      }
    case NotRenew(code) => ChangingTwice(s, code, WillNotRenew);
    case Disable(code) => ChangingTwice(s, code, Disabled);
    case InvoiceUpdate(code, _, fetched) =>
      if fetched.Some? {
        ChangingTwice(s, code, Renewed(fetched.value));
      }
    case InvoicePaymentFailed(code) =>
      if code.Some? {
        ChangingTwice(s, code.value, Overdue);
      }
    case _ =>
  }

  // ---- What undoes what ----

  lemma FoundAfterChange(s: State, code: string, change: Subscription -> Subscription)
    requires Find(s.subs, code).Some? && forall sub :: change(sub).code == sub.code
    ensures var (i, s') := (Find(s.subs, code).value, Changed(s, code, change));
            Find(s'.subs, code) == Some(i) && s'.subs[i] == change(s.subs[i])
  {
    SameCodesFindTheSame(s.subs, Changed(s, code, change).subs, code);
  }

  lemma FailedThenPaid(c: Config, s: State, code: string, date: Option<int>)
    requires Find(s.subs, code).Some?
    ensures var (first, second) := (InvoicePaymentFailed(Some(code)), InvoiceUpdate(code, true, Some(date)));
            !Settled(c, Run(c, s, [first, second]), first)
  {
    var (first, second) := (InvoicePaymentFailed(Some(code)), InvoiceUpdate(code, true, Some(date)));
    TwoChanges(c, s, code, first, second, Overdue, Renewed(date));
    hide Find, Run, Handled;
  }

  lemma CancelledThenPaid(c: Config, s: State, code: string, date: Option<int>)
    requires Find(s.subs, code).Some?
    ensures var (first, second) := (NotRenew(code), InvoiceUpdate(code, true, Some(date)));
            !Settled(c, Run(c, s, [first, second]), first)
  {
    TwoChanges(c, s, code, NotRenew(code), InvoiceUpdate(code, true, Some(date)), WillNotRenew, Renewed(date));
    hide Find, Run, Handled;
  }

  lemma DisabledThenPaid(c: Config, s: State, code: string, date: Option<int>)
    requires Find(s.subs, code).Some?
    ensures var (first, second) := (Disable(code), InvoiceUpdate(code, true, Some(date)));
            !Settled(c, Run(c, s, [first, second]), first)
  {
    TwoChanges(c, s, code, Disable(code), InvoiceUpdate(code, true, Some(date)), Disabled, Renewed(date));
    hide Find, Run, Handled;
  }

  lemma PaidThenFailed(c: Config, s: State, code: string, date: Option<int>)
    requires Find(s.subs, code).Some?
    ensures var (first, second) := (InvoiceUpdate(code, true, Some(date)), InvoicePaymentFailed(Some(code)));
            !Settled(c, Run(c, s, [first, second]), first)
  {
    var (first, second) := (InvoiceUpdate(code, true, Some(date)), InvoicePaymentFailed(Some(code)));
    TwoChanges(c, s, code, first, second, Renewed(date), Overdue);
    hide Find, Run, Handled;
  }

  /** For a recorded code every kind of event that acts on its row has a successor after which its repeat is not
    * settled, and so changes the row again: a failed payment, a cancellation or a disable before a paid invoice, and a
    * paid invoice before a failed payment. */
  lemma LateRepeatsUndo(c: Config, s: State, code: string, date: Option<int>)
    requires Find(s.subs, code).Some?
    ensures var (failed, paid) := (InvoicePaymentFailed(Some(code)), InvoiceUpdate(code, true, Some(date)));
            && !Settled(c, Run(c, s, [failed, paid]), failed)
            && !Settled(c, Run(c, s, [NotRenew(code), paid]), NotRenew(code))
            && !Settled(c, Run(c, s, [Disable(code), paid]), Disable(code))
            && !Settled(c, Run(c, s, [paid, failed]), paid)
  {
    hide *;
    FailedThenPaid(c, s, code, date);
    CancelledThenPaid(c, s, code, date);
    DisabledThenPaid(c, s, code, date);
    PaidThenFailed(c, s, code, date);
  }

  lemma TwoChanges(
    c: Config, s: State, code: string, first: Event, second: Event,
    change: Subscription -> Subscription, next: Subscription -> Subscription)
    requires Find(s.subs, code).Some?
    requires forall sub :: change(sub).code == sub.code && next(sub).code == sub.code
    requires forall t :: Handled(c, t, first) == Changed(t, code, change)
    requires forall t :: Handled(c, t, second) == Changed(t, code, next)
    ensures var (i, s') := (Find(s.subs, code).value, Run(c, s, [first, second]));
            Find(s'.subs, code) == Some(i) && s'.subs[i] == next(change(s.subs[i]))
  {
    assert [first, second][..1] == [first] && [first][..0] == [];
    hide Handled, Find;
    assert Run(c, s, [first]) == Changed(s, code, change);
    FoundAfterChange(s, code, change);
    FoundAfterChange(Changed(s, code, change), code, next);
  }

  lemma RecordedIsFound(c: Config, s: State, e: Event)
    requires Records(c, s, e)
    ensures Find(Created(c, s, e).subs, e.code).Some?
  {
    var subs := Created(c, s, e).subs;
    var i := RowOfCompany(s.subs, CompanyOf(e).value);
    assert i < |subs| && subs[i].code == Some(e.code);
  }

  ghost predicate Has(s: State, company: string, code: string) {
    var i := RowOfCompany(s.subs, company);
    i < |s.subs| && s.subs[i].code == Some(code)
  }

  lemma RecordedFor(c: Config, s: State, e: Event)
    requires Records(c, s, e)
    ensures Has(Created(c, s, e), CompanyOf(e).value, e.code)
  {
    var subs := Created(c, s, e).subs;
    var i := RowOfCompany(s.subs, CompanyOf(e).value);
    assert subs[i].company == CompanyOf(e).value;
    assert forall k :: 0 <= k < i ==> subs[k].company != CompanyOf(e).value;
    assert RowOfCompany(subs, CompanyOf(e).value) == i;
  }

  lemma RecordingReplaces(c: Config, s: State, e: Event, code: string)
    requires CodesInv(s) && Records(c, s, e) && Has(s, CompanyOf(e).value, code)
    ensures Find(Created(c, s, e).subs, code).None?
  {
    var subs := Created(c, s, e).subs;
    var i := RowOfCompany(s.subs, CompanyOf(e).value);
    assert RowOfCode(s.subs, code) == i;
    forall k | 0 <= k < |subs| ensures subs[k].code != Some(code) {
      assert k != i ==> subs[k] == s.subs[k];
    }
  }

  /** Rows are never removed and never change company. */
  lemma HandledKeepsCompanies(c: Config, s: State, e: Event)
    ensures |s.subs| <= |Handled(c, s, e).subs|
    ensures forall i :: 0 <= i < |s.subs| ==> Handled(c, s, e).subs[i].company == s.subs[i].company
  {
    hide Find, Records, MapPlanCodeToPlan;
  }

  lemma {:induction false} RunKeepsRow(c: Config, s: State, events: seq<Event>, i: nat)
    requires i < |s.subs|
    ensures i < |Run(c, s, events).subs| && Run(c, s, events).subs[i].company == s.subs[i].company
  {
    hide Handled;
    if events != [] {
      RunKeepsRow(c, s, events[..|events| - 1], i);
      HandledKeepsCompanies(c, Run(c, s, events[..|events| - 1]), events[|events| - 1]);
    }
  }

  /** A create event that was recorded, delivered again after any other events, changes nothing if and only if its code
    * is still recorded. */
  lemma LateCreateChangesNothingExactly(c: Config, s: State, e: Event, between: seq<Event>)
    requires Records(c, s, e)
    ensures var s' := Run(c, Handled(c, s, e), between);
            Handled(c, s', e) == s' <==> Find(s'.subs, e.code).Some?
  {
    var (s1, company) := (Handled(c, s, e), CompanyOf(e).value);
    var s' := Run(c, s1, between);
    RecordedFor(c, s, e);
    RunKeepsRow(c, s1, between, RowOfCompany(s1.subs, company));
    EventChangesNothingExactly(c, s', e);
    hide Run, Handled, Created;
    assert RowOfCompany(s'.subs, company) < |s'.subs|;
  }

  /** It is not once the company has moved on to a second subscription: the first one's create event is then taken for
    * new and puts the company back on it. */
  lemma LateCreateReverts(c: Config, s: State, first: Event, second: Event)
    requires CodesInv(s) && Records(c, s, first)
    requires Records(c, Handled(c, s, first), second) && CompanyOf(second) == CompanyOf(first)
    ensures var s' := Handled(c, Handled(c, s, first), second);
            && Records(c, s', first)
            && Has(Handled(c, s', first), CompanyOf(first).value, first.code)
            && Find(Handled(c, s', first).subs, second.code).None?
  {
    hide CodesInv, RowOfCompany, Find, Created;
    var (s1, company) := (Handled(c, s, first), CompanyOf(first).value);
    var s2 := Handled(c, s1, second);
    HandledKeepsCodes(c, s, first);
    HandledKeepsCodes(c, s1, second);
    RecordedFor(c, s, first);
    RecordingReplaces(c, s1, second, first.code);
    RecordedFor(c, s1, second);
    RecordingReplaces(c, s2, first, second.code);
    RecordedFor(c, s2, first);
  }

  predicate SubscriptionCharge(e: Event, reference: string) {
    e.ChargeSuccess? && e.reference == reference && e.chargedCode.Some? && e.chargedCode.value != ""
  }

  /** One of the events was a subscription charge with that reference, and its mark has not been forgotten since. */
  predicate Carried(events: seq<Event>, reference: string) {
    && events != []
    && var last := events[|events| - 1];
       || SubscriptionCharge(last, reference)
       || (last != MarkForgotten(reference) && Carried(events[..|events| - 1], reference))
  }

  /** The events without the charges that repeat an earlier reference. */
  function WithoutRepeats(events: seq<Event>): seq<Event> {
    if events == [] then []
    else
      var (before, last) := (events[..|events| - 1], events[|events| - 1]);
      if last.ChargeSuccess? && last.reference != "" && Carried(before, last.reference) then WithoutRepeats(before)
      else WithoutRepeats(before) + [last]
  }

  lemma {:induction false} CarriedIsMarked(c: Config, s: State, events: seq<Event>, reference: string)
    requires reference != "" && Carried(events, reference)
    ensures reference in Run(c, s, events).marks
  {
    var (before, last) := (events[..|events| - 1], events[|events| - 1]);
    if !SubscriptionCharge(last, reference) {
      CarriedIsMarked(c, s, before, reference);
    }
  }

  /** Dropping the repeats of charge references, wherever in the run they come, leads to the same state. */
  lemma {:induction false} RepeatsChangeNothing(c: Config, s: State, events: seq<Event>)
    ensures Run(c, s, WithoutRepeats(events)) == Run(c, s, events)
  {
    if events != [] {
      var (before, last) := (events[..|events| - 1], events[|events| - 1]);
      RepeatsChangeNothing(c, s, before);
      if last.ChargeSuccess? && last.reference != "" && Carried(before, last.reference) {
        CarriedIsMarked(c, s, before, last.reference);
      } else {
        assert (WithoutRepeats(before) + [last])[..|WithoutRepeats(before)|] == WithoutRepeats(before);
      }
    }
  }

  // ---- Unknown codes ----

  function CodeOf(e: Event): Option<string> {
    match e
    case ChargeSuccess(_, code) => code
    case NotRenew(code) => Some(code)
    case Disable(code) => Some(code)
    case InvoiceUpdate(code, _, _) => Some(code)
    case InvoicePaymentFailed(code) => code
    case _ => None
  }

  /** Only a create event can act on a code nobody has recorded; any other leaves every subscription as it was. */
  lemma UnrecordedCodeChangesNothing(c: Config, s: State, e: Event)
    requires CodeOf(e).Some? && forall i :: 0 <= i < |s.subs| ==> s.subs[i].code != CodeOf(e)
    ensures Handled(c, s, e).subs == s.subs
  {
  }

  // ---- Which event may change what ----

  /** The event is about the row: it carries the row's code, or is a create recorded for the row's company. */
  predicate About(c: Config, s: State, e: Event, sub: Subscription) {
    || (CodeOf(e).Some? && sub.code == CodeOf(e))
    || (Records(c, s, e) && CompanyOf(e) == Some(sub.company))
  }

  /** No event removes a row or moves it to another company, and none touches a row it is not about. Of a row it is
    * about, the plan changes by a create, to the plan the event names, or by a disable, to the free one; the code by a
    * create only; the paid period by a create or a paid invoice; a planned cancellation is announced by not_renew alone
    * and withdrawn by a disable or a paid invoice alone. */
  lemma RowsChangeOnlyBy(c: Config, s: State, e: Event, i: nat)
    requires CodesInv(s) && i < |s.subs|
    ensures i < |Handled(c, s, e).subs|
    ensures var (before, after) := (s.subs[i], Handled(c, s, e).subs[i]);
            && after.company == before.company
            && (!About(c, s, e, before) ==> after == before)
            && (after.plan != before.plan ==>
                  (e.Disable? && after.plan == Free)
                  || (e.SubscriptionCreate? && Some(after.plan) == MapPlanCodeToPlan(c, e.planCode)))
            && (after.code != before.code ==> e.SubscriptionCreate? && after.code == Some(e.code))
            && (after.currentPeriodEnd != before.currentPeriodEnd ==>
                  (e.SubscriptionCreate? && after.currentPeriodEnd == e.nextPaymentDate)
                  || (e.InvoiceUpdate? && e.paid && Some(after.currentPeriodEnd) == e.fetched))
            && (after.cancelAtPeriodEnd && !before.cancelAtPeriodEnd ==> e.NotRenew?)
            && (before.cancelAtPeriodEnd && !after.cancelAtPeriodEnd ==> e.Disable? || (e.InvoiceUpdate? && e.paid))
            && (after.status == PastDue && before.status != PastDue ==> e.InvoicePaymentFailed?)
            && (after.status == Canceled && before.status != Canceled ==> e.Disable?)
  {
    hide MapPlanCodeToPlan, Blank;
    if e.SubscriptionCreate? && Records(c, s, e) {
      var k := RowOfCompany(s.subs, CompanyOf(e).value);
      assert k != i ==> s.subs[i].company != CompanyOf(e).value;
    }
  }

  // ---- After a downgrade ----

  ghost predicate OnFree(s: State, company: string, code: string) {
    exists i ::
      0 <= i < |s.subs| && s.subs[i].company == company && s.subs[i].code == Some(code) && s.subs[i].plan == Free
  }

  lemma DisableDowngrades(c: Config, s: State, company: string, code: string)
    requires CodesInv(s) && !Blank(code)
    requires exists i :: 0 <= i < |s.subs| && s.subs[i].company == company && s.subs[i].code == Some(code)
    ensures OnFree(Handled(c, s, Disable(code)), company, code)
  {
    var i :| 0 <= i < |s.subs| && s.subs[i].company == company && s.subs[i].code == Some(code);
    assert RowOfCode(s.subs, code) == i;
    assert Handled(c, s, Disable(code)).subs[i].plan == Free;
  }

  /** A downgraded company is lifted off the free plan by exactly one kind of event: a create that is recorded for it,
    * which therefore carries another code than the one that was disabled. */
  lemma DowngradeEndsExactly(c: Config, s: State, e: Event, company: string, code: string)
    requires CodesInv(s) && OnFree(s, company, code)
    ensures OnFree(Handled(c, s, e), company, code) <==> !(Records(c, s, e) && CompanyOf(e) == Some(company))
    ensures Records(c, s, e) ==> e.code != code
  {
    hide MapPlanCodeToPlan, Blank;
    var i :|
      0 <= i < |s.subs| && s.subs[i].company == company && s.subs[i].code == Some(code) && s.subs[i].plan == Free;
    var s' := Handled(c, s, e);
    assert RowOfCode(s.subs, code) == i;
    assert RowOfCompany(s.subs, company) == i;
    if Records(c, s, e) {
      CreatedKeepsCodes(c, s, e);
      assert e.code != code by {
        assert RowOfCode(s.subs, e.code) == |s.subs|;
      }
      if CompanyOf(e) == Some(company) {
        assert s'.subs[i].company == company && s'.subs[i].code != Some(code);
      } else {
        assert s'.subs[i] == s.subs[i];
      }
    } else {
      assert s'.subs[i].company == company && s'.subs[i].code == Some(code) && s'.subs[i].plan == Free;
    }
  }

  /** So it stays on the free plan through every run without a create event for it under another code. */
  lemma {:induction false} StaysOnFree(c: Config, s: State, events: seq<Event>, company: string, code: string)
    requires CodesInv(s) && OnFree(s, company, code)
    requires forall i :: 0 <= i < |events| && events[i].SubscriptionCreate? && CompanyOf(events[i]) == Some(company) ==>
               events[i].code == code
    ensures OnFree(Run(c, s, events), company, code) && CodesInv(Run(c, s, events))
  {
    if events != [] {
      var (before, last) := (events[..|events| - 1], events[|events| - 1]);
      StaysOnFree(c, s, before, company, code);
      HandledKeepsCodes(c, Run(c, s, before), last);
      DowngradeEndsExactly(c, Run(c, s, before), last, company, code);
    }
  }
}
