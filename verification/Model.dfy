/** The entities every other module works on: tenants, invoices and the two tables. */
module Model {

  datatype Option<+T> = None | Some(value: T)

  /** A character of str(uuid4()). */
  predicate UuidChar(c: char) { '0' <= c <= '9' || 'a' <= c <= 'f' || c == '-' }

  /** Tenant ids are generated: str(uuid4()). */
  type TenantId = s: string | forall c :: c in s ==> UuidChar(c) witness ""

  type UserId = string
  type InvoiceId = string

  datatype Status = Draft | Sent | Overdue | Paid

  datatype Currency = NGN | USD | GBP | EUR

  datatype PaymentMethod = Transfer | Cash | Pos | Cheque | Card | MobileMoney | Other

  datatype Role = Attendant | Manager | Admin | Owner

  datatype User = User(id: UserId, tenant: TenantId, role: Role, superadmin: bool)

  datatype Customer = Customer(
    name: string, email: Option<string>, phone: Option<string>, address: Option<string>)

  /** A line item as submitted; Decimal values are exact. */
  datatype Line = Line(description: string, quantity: real, unitPrice: real)

  /** A line item as its Numeric(10,2) columns hold it, in hundredths. */
  datatype StoredLine = StoredLine(description: string, quantity: int, unitPrice: int, total: int)

  /** The four money columns of an invoice, in cents. */
  datatype Amounts = Amounts(subtotal: int, tax: int, discount: int, total: int)

  /** What the items and amounts were last written from. No handler reads it: it is history. */
  datatype Source = Source(lines: seq<Line>, taxRate: Option<real>)

  datatype Invoice = Invoice(
    id: InvoiceId,
    tenant: TenantId,
    number: string,
    creator: UserId,
    customer: Customer,
    currency: Currency,
    issueDate: string,
    dueDate: Option<string>,
    notes: Option<string>,
    status: Status,
    lines: seq<StoredLine>,
    amounts: Amounts,
    paymentMethod: Option<PaymentMethod>,
    paidAt: Option<string>,
    source: Source)

  datatype Tenant = Tenant(
    prefix: string, format: string, sequence: nat, currency: string, taxRate: Option<real>)

  /** The committed contents of the database. */
  datatype Db = Db(tenants: map<TenantId, Tenant>, invoices: seq<Invoice>)

  /** GET /analytics/invoice-summary; amounts in cents. */
  datatype Summary = Summary(
    total: nat, draft: nat, sent: nat, paid: nat, overdue: nat,
    revenue: int, pending: int, overdueAmount: int, currency: string)

  /** One entry of GET /analytics/revenue-by-status. */
  datatype StatusRevenue = StatusRevenue(status: Status, count: nat, amount: int, currency: string)

  /** What the analytics endpoints return, and cache as JSON. */
  datatype Report = SummaryReport(summary: Summary) | RevenueReport(rows: seq<StatusRevenue>)

  /** Currency(tenant.default_currency), falling back to USD. */
  function CurrencyOf(code: string): Currency {
    if code == "NGN" then NGN else if code == "GBP" then GBP else if code == "EUR" then EUR else USD
  }

  /** The primary key: no two rows share an id. */
  ghost predicate UniqueIds(invoices: seq<Invoice>) {
    forall i, j :: 0 <= i < j < |invoices| ==> invoices[i].id != invoices[j].id
  }

  /** uq_invoice_tenant_invoice_number. */
  ghost predicate UniqueNumbers(invoices: seq<Invoice>) {
    forall i, j :: 0 <= i < j < |invoices| ==>
      invoices[i].tenant != invoices[j].tenant || invoices[i].number != invoices[j].number
  }

  predicate NumberTaken(invoices: seq<Invoice>, tenant: TenantId, number: string) {
    exists i :: 0 <= i < |invoices| && invoices[i].tenant == tenant && invoices[i].number == number
  }

  /** Numeric(10,2) holds up to eight digits before the point. */
  predicate Fits(cents: int) { -1_00000000_00 < cents < 1_00000000_00 }

  predicate FitsColumns(row: Invoice) {
    && Fits(row.amounts.subtotal) && Fits(row.amounts.tax)
    && Fits(row.amounts.discount) && Fits(row.amounts.total)
    && forall i :: 0 <= i < |row.lines| ==>
         Fits(row.lines[i].quantity) && Fits(row.lines[i].unitPrice) && Fits(row.lines[i].total)
  }

  /** The row a query by id and tenant returns, as its position. */
  function Find(invoices: seq<Invoice>, id: InvoiceId, tenant: TenantId): (k: nat)
    ensures k <= |invoices|
    ensures k < |invoices| ==> invoices[k].id == id && invoices[k].tenant == tenant
    ensures forall i :: 0 <= i < k ==> !(invoices[i].id == id && invoices[i].tenant == tenant)
  {
    if invoices == [] || (invoices[0].id == id && invoices[0].tenant == tenant) then 0
    else 1 + Find(invoices[1..], id, tenant)
  }

  function Remove<T>(s: seq<T>, k: nat): (r: seq<T>)
    requires k < |s|
    ensures |r| == |s| - 1
    ensures forall i :: 0 <= i < |r| ==> r[i] == s[if i < k then i else i + 1]
  {
    s[..k] + s[k + 1..]
  }

  lemma MultisetOfRemove<T>(s: seq<T>, k: nat)
    requires k < |s|
    ensures multiset(s) == multiset{s[k]} + multiset(Remove(s, k))
    ensures multiset(Remove(s, k)) == multiset(s) - multiset{s[k]}
  {
    assert s == s[..k] + [s[k]] + s[k + 1..];
    assert multiset(s) == multiset{s[k]} + multiset(Remove(s, k));
  }
}
