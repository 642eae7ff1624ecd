/** The database: committed rows, and the row locks that SELECT ... FOR UPDATE takes. */
module Storage {
  import opened Model

  type SessionId = nat

  class Database {
    var tenants: map<TenantId, Tenant>
    var invoices: seq<Invoice>
    var locks: map<TenantId, SessionId>
    const round: real -> int   // how Numeric(10,2) columns round

    constructor (round: real -> int)
      ensures View() == Db(map[], []) && locks == map[] && this.round == round
    {
      tenants, invoices, locks := map[], [], map[];
      this.round := round;
    }

    function View(): Db
      reads this
    {
      Db(tenants, invoices)
    }
  }
}
