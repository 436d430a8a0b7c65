/** Online accounts: the per-type activity counters (posts for social
    accounts, proposals for professional ones, applications for job boards)
    kept by the local store and by the accounts page, the page's search,
    section and tab filters, and the account form's submit rules. */
module Accounts {
  import opened Wrappers
  import opened Seqs
  import opened Text

  datatype AccountType = Social | Professional | JobBoard

  datatype JobBoardCategory = Global | Remote | Morocco | French | MENA

  datatype ProfessionalCategory = Global | French | Arabic

  /** The three counters; each belongs to one account type. */
  datatype Counter = PostCount | ProposalCount | ApplicationCount

  /** An account. A counter that was never set is `None`; the source reads it
      as 0. `createdAt` is left out. */
  datatype Account = Account(
    id: string,
    name: string,
    accountType: AccountType,
    platform: Option<string>,
    jobBoardCategory: Option<JobBoardCategory>,
    professionalCategory: Option<ProfessionalCategory>,
    username: string,
    url: string,
    email: string,
    loginPassword: string,
    credentialHint: string,
    notes: string,
    postCount: Option<int>,
    proposalCount: Option<int>,
    applicationCount: Option<int>)

  /** The account type whose counter `c` is. */
  function Owner(c: Counter): AccountType
  {
    match c
    case PostCount => Social
    case ProposalCount => Professional
    case ApplicationCount => JobBoard
  }

  function Field(a: Account, c: Counter): Option<int>
  {
    match c
    case PostCount => a.postCount
    case ProposalCount => a.proposalCount
    case ApplicationCount => a.applicationCount
  }

  /** `account[field] || 0` */
  function GetCount(a: Account, c: Counter): int
  {
    Field(a, c).GetOr(0)
  }

  /** The account with counter `c` set to `v` and nothing else changed. */
  function SetCount(a: Account, c: Counter, v: int): (r: Account)
    ensures GetCount(r, c) == v
    ensures forall d :: d != c ==> Field(r, d) == Field(a, d)
  {
    match c
    case PostCount => a.(postCount := Some(v))
    case ProposalCount => a.(proposalCount := Some(v))
    case ApplicationCount => a.(applicationCount := Some(v))
  }

  /** `accounts.findIndex(a => a.id === accountId)` */
  function AccountIndex(accounts: seq<Account>, accountId: string): int
  {
    FirstIndex(accounts, (a: Account) => a.id == accountId)
  }

  // ------------------------------------------------------------ local store

  /** `incrementAccountPostCount` / `…ProposalCount` / `…ApplicationCount`:
      the counter of the first account with the id grows by one, provided the
      account has the counter's type; otherwise nothing changes. */
  function Increment(accounts: seq<Account>, accountId: string, c: Counter): (r: seq<Account>)
    ensures |r| == |accounts|
    ensures var k := AccountIndex(accounts, accountId);
      && (k == -1 || accounts[k].accountType != Owner(c) ==> r == accounts)
      && (k >= 0 ==> forall i :: 0 <= i < |r| && i != k ==> r[i] == accounts[i])
      && (k >= 0 && accounts[k].accountType == Owner(c) ==>
            r[k] == SetCount(accounts[k], c, GetCount(accounts[k], c) + 1))
  {
    var k := AccountIndex(accounts, accountId);
    if k >= 0 && accounts[k].accountType == Owner(c) then
      accounts[k := SetCount(accounts[k], c, GetCount(accounts[k], c) + 1)]
    else accounts
  }

  /** `decrementAccount…Count`: the counter of the first account with the id
      shrinks by one, provided the account has the counter's type and the
      count is positive; otherwise nothing changes. */
  function Decrement(accounts: seq<Account>, accountId: string, c: Counter): (r: seq<Account>)
    ensures |r| == |accounts|
    ensures var k := AccountIndex(accounts, accountId);
      && (k == -1 || accounts[k].accountType != Owner(c) || GetCount(accounts[k], c) <= 0 ==> r == accounts)
      && (k >= 0 ==> forall i :: 0 <= i < |r| && i != k ==> r[i] == accounts[i])
      && (k >= 0 && accounts[k].accountType == Owner(c) && GetCount(accounts[k], c) > 0 ==>
            r[k] == SetCount(accounts[k], c, GetCount(accounts[k], c) - 1))
  {
    var k := AccountIndex(accounts, accountId);
    if k >= 0 && accounts[k].accountType == Owner(c) && GetCount(accounts[k], c) > 0 then
      accounts[k := SetCount(accounts[k], c, GetCount(accounts[k], c) - 1)]
    else accounts
  }

  /** No account holds a negative count. */
  predicate NonNegative(accounts: seq<Account>)
  {
    forall i, c :: 0 <= i < |accounts| ==> GetCount(accounts[i], c) >= 0
  }

  /** The store's counters never go negative. */
  lemma StoreCountsStayNonNegative(accounts: seq<Account>, accountId: string, c: Counter)
    requires NonNegative(accounts)
    ensures NonNegative(Increment(accounts, accountId, c))
    ensures NonNegative(Decrement(accounts, accountId, c))
  {
    var k := AccountIndex(accounts, accountId);
    if k >= 0 {
      var inc := Increment(accounts, accountId, c);
      var dec := Decrement(accounts, accountId, c);
      forall i, d | 0 <= i < |accounts| ensures GetCount(inc[i], d) >= 0 && GetCount(dec[i], d) >= 0 {
        assert GetCount(accounts[i], d) >= 0;
        if i == k && d != c {
          assert GetCount(inc[i], d) == GetCount(accounts[i], d);
          assert GetCount(dec[i], d) == GetCount(accounts[i], d);
        }
      }
    }
  }

  /** A decrement undoes an increment: every count is as before. */
  lemma DecrementUndoesIncrement(accounts: seq<Account>, accountId: string, c: Counter)
    requires NonNegative(accounts)
    ensures var r := Decrement(Increment(accounts, accountId, c), accountId, c);
      |r| == |accounts| && forall i, d :: 0 <= i < |r| ==> GetCount(r[i], d) == GetCount(accounts[i], d)
  {
    var inc := Increment(accounts, accountId, c);
    var k := AccountIndex(accounts, accountId);
    if k >= 0 && accounts[k].accountType == Owner(c) {
      assert forall i :: 0 <= i < k ==> inc[i] == accounts[i];
      assert inc[k].id == accountId && inc[k].accountType == Owner(c);
      assert AccountIndex(inc, accountId) == k;
      var r := Decrement(inc, accountId, c);
      forall i, d | 0 <= i < |r| ensures GetCount(r[i], d) == GetCount(accounts[i], d) {
        if i == k && d != c {
          assert Field(r[i], d) == Field(inc[i], d) == Field(accounts[i], d);
        }
      }
    }
  }

  // ------------------------------------------------------------ accounts page

  /** `handleUpdateCount(id, field, delta)`: the first account with the id,
      with the field set to `max(0, current + delta)`; None (nothing written)
      for an unknown id. The page does not check the account's type. */
  function PageUpdateCount(accounts: seq<Account>, accountId: string, c: Counter, delta: int): (r: Option<Account>)
    ensures r.None? <==> forall i :: 0 <= i < |accounts| ==> accounts[i].id != accountId
    ensures r.Some? ==>
      var a := accounts[AccountIndex(accounts, accountId)];
      && r.value == SetCount(a, c, GetCount(r.value, c))
      && GetCount(r.value, c) >= 0
      && (GetCount(a, c) + delta >= 0 ==> GetCount(r.value, c) == GetCount(a, c) + delta)
      && (GetCount(a, c) + delta < 0 ==> GetCount(r.value, c) == 0)
  {
    var k := AccountIndex(accounts, accountId);
    if k == -1 then None
    else
      var current := GetCount(accounts[k], c);
      Some(SetCount(accounts[k], c, if current + delta > 0 then current + delta else 0))
  }

  /** On an account of the counter's type with a non-negative count, the page
      and the store agree on a step of one in either direction. */
  lemma CounterWritersAgree(accounts: seq<Account>, accountId: string, c: Counter)
    requires AccountIndex(accounts, accountId) >= 0
    requires var a := accounts[AccountIndex(accounts, accountId)];
      a.accountType == Owner(c) && GetCount(a, c) >= 0
    ensures var k := AccountIndex(accounts, accountId);
      && GetCount(Increment(accounts, accountId, c)[k], c) == GetCount(PageUpdateCount(accounts, accountId, c, 1).value, c)
      && GetCount(Decrement(accounts, accountId, c)[k], c) == GetCount(PageUpdateCount(accounts, accountId, c, -1).value, c)
  {
  }

  /** The search box: name or username contains the term, ignoring case. */
  predicate Matches(a: Account, term: string)
  {
    ContainsIgnoreCase(a.name, term) || ContainsIgnoreCase(a.username, term)
  }

  /** `filteredAccounts` */
  function Search(accounts: seq<Account>, term: string): (r: seq<Account>)
    ensures forall i :: 0 <= i < |r| ==> Matches(r[i], term)
  {
    Filter(accounts, (a: Account) => Matches(a, term))
  }

  /** An empty search keeps every account, in order. */
  lemma SearchEmptyTerm(accounts: seq<Account>)
    ensures Search(accounts, "") == accounts
  {
    forall i | 0 <= i < |accounts| ensures Matches(accounts[i], "") {
      EmptyTermMatches(accounts[i].name);
    }
    FilterAll(accounts, (a: Account) => Matches(a, ""));
  }

  /** A section: the filtered accounts of one type. */
  function Section(filtered: seq<Account>, t: AccountType): (r: seq<Account>)
    ensures forall i :: 0 <= i < |r| ==> r[i].accountType == t
  {
    Filter(filtered, (a: Account) => a.accountType == t)
  }

  /** Each section shows exactly the accounts of its type that match the
      search. */
  lemma SectionExact(accounts: seq<Account>, term: string, t: AccountType, x: Account)
    ensures x in Section(Search(accounts, term), t) <==> x in accounts && Matches(x, term) && x.accountType == t
  {
    var found := Search(accounts, term);
    var sec := Section(found, t);
    if x in accounts && Matches(x, term) && x.accountType == t {
      var i :| 0 <= i < |accounts| && accounts[i] == x;
      FilterKeeps(accounts, (a: Account) => Matches(a, term), i);
      var j :| 0 <= j < |found| && found[j] == x;
      FilterKeeps(found, (a: Account) => a.accountType == t, j);
    }
    if x in sec {
      var j :| 0 <= j < |sec| && sec[j] == x;
      FilterFrom(found, (a: Account) => a.accountType == t, j);
      var i :| 0 <= i < |found| && found[i] == x;
      FilterFrom(accounts, (a: Account) => Matches(a, term), i);
    }
  }

  /** The job-board tab an account is listed under: its category, Remote when
      it has none. */
  function JobBoardTabOf(a: Account): JobBoardCategory
  {
    a.jobBoardCategory.GetOr(JobBoardCategory.Remote)
  }

  /** The job-board section's accounts shown under `tab`. */
  function JobBoardTab(section: seq<Account>, tab: JobBoardCategory): seq<Account>
  {
    Filter(section, (a: Account) => a.jobBoardCategory == Some(tab) || (a.jobBoardCategory.None? && tab == JobBoardCategory.Remote))
  }

  /** Every job-board account is listed under exactly one tab: its own. */
  lemma JobBoardTabExact(section: seq<Account>, tab: JobBoardCategory, x: Account)
    requires x in section
    ensures x in JobBoardTab(section, tab) <==> JobBoardTabOf(x) == tab
  {
    var p := (a: Account) => a.jobBoardCategory == Some(tab) || (a.jobBoardCategory.None? && tab == JobBoardCategory.Remote);
    var i :| 0 <= i < |section| && section[i] == x;
    if JobBoardTabOf(x) == tab {
      FilterKeeps(section, p, i);
    }
    if x in JobBoardTab(section, tab) {
      var j :| 0 <= j < |JobBoardTab(section, tab)| && JobBoardTab(section, tab)[j] == x;
    }
  }

  /** The professional tab an account is listed under: its category, Global
      when it has none. */
  function ProfessionalTabOf(a: Account): ProfessionalCategory
  {
    a.professionalCategory.GetOr(ProfessionalCategory.Global)
  }

  /** The professional section's accounts shown under `tab`. */
  function ProfessionalTab(section: seq<Account>, tab: ProfessionalCategory): seq<Account>
  {
    Filter(section, (a: Account) => a.professionalCategory == Some(tab) || (a.professionalCategory.None? && tab == ProfessionalCategory.Global))
  }

  /** Every professional account is listed under exactly one tab: its own. */
  lemma ProfessionalTabExact(section: seq<Account>, tab: ProfessionalCategory, x: Account)
    requires x in section
    ensures x in ProfessionalTab(section, tab) <==> ProfessionalTabOf(x) == tab
  {
    var p := (a: Account) => a.professionalCategory == Some(tab) || (a.professionalCategory.None? && tab == ProfessionalCategory.Global);
    var i :| 0 <= i < |section| && section[i] == x;
    if ProfessionalTabOf(x) == tab {
      FilterKeeps(section, p, i);
    }
    if x in ProfessionalTab(section, tab) {
      var j :| 0 <= j < |ProfessionalTab(section, tab)| && ProfessionalTab(section, tab)[j] == x;
    }
  }

  /** What the account form holds when submitted. */
  datatype AccountForm = AccountForm(
    name: string, username: string, url: string, accountType: AccountType,
    socialPlatform: string, professionalPlatform: string, jobBoardPlatform: string,
    jobBoardCategory: JobBoardCategory, professionalCategory: ProfessionalCategory,
    email: string, password: string, hint: string, notes: string)

  /** `AccountForm.handleSubmit`: refused when the name, username or url is
      empty. Otherwise the account to add (with the id `id`), or, when
      editing `existing`, that account with the form's fields written over
      it (its counters kept). An edit keeps the account's own type, whatever
      type the form was opened with. The platform is the one picked for the
      type; a job-board category is kept only for job boards and a
      professional category only for professional accounts. */
  function SubmitAccount(form: AccountForm, id: string, existing: Option<Account>): (r: Option<Account>)
    ensures r.None? <==> form.name == "" || form.username == "" || form.url == ""
    ensures r.Some? ==>
      var t := if existing.Some? then existing.value.accountType else form.accountType;
      && r.value.name == form.name && r.value.username == form.username && r.value.url == form.url
      && r.value.accountType == t
      && (r.value.jobBoardCategory.Some? <==> t == JobBoard)
      && (r.value.professionalCategory.Some? <==> t == Professional)
      && (t == JobBoard ==> r.value.jobBoardCategory == Some(form.jobBoardCategory))
      && (t == Professional ==> r.value.professionalCategory == Some(form.professionalCategory))
      && r.value.platform == Some(match t
                                  case Social => form.socialPlatform
                                  case Professional => form.professionalPlatform
                                  case JobBoard => form.jobBoardPlatform)
      && (existing.Some? ==> r.value.id == existing.value.id && forall c :: Field(r.value, c) == Field(existing.value, c))
      && (existing.None? ==> r.value.id == id && forall c :: Field(r.value, c).None?)
  {
    if form.name == "" || form.username == "" || form.url == "" then None
    else
      var t := if existing.Some? then existing.value.accountType else form.accountType;
      var platform := if t == Social then form.socialPlatform
                      else if t == Professional then form.professionalPlatform
                      else form.jobBoardPlatform;
      var base := match existing
                  case Some(a) => a
                  case None => Account(id, "", t, None, None, None, "", "", "", "", "", "", None, None, None);
      Some(base.(name := form.name, accountType := t, platform := Some(platform),
                 jobBoardCategory := if t == JobBoard then Some(form.jobBoardCategory) else None,
                 professionalCategory := if t == Professional then Some(form.professionalCategory) else None,
                 username := form.username, url := form.url, email := form.email,
                 loginPassword := form.password, credentialHint := form.hint, notes := form.notes))
  }

  /** Submitting the same form again over the account it produced changes
      nothing: the type is kept, every field is rewritten to its value. */
  lemma SubmitAccountResubmit(form: AccountForm, id: string, existing: Option<Account>, other: string)
    requires SubmitAccount(form, id, existing).Some?
    ensures var a := SubmitAccount(form, id, existing).value;
      SubmitAccount(form, other, Some(a)) == Some(a)
  {
  }
}
