/** The public catalogue as the database sees it, and the ordered reads the sync
    repository issues against it. */
module SyncCatalogue {

  /** The seven whitelisted domains, and any other name a caller might pass. */
  datatype Domain =
    | Events | Venues | Organizers | Categories | TicketTypes | Comments | Reviews
    | Unlisted(name: string)

  const SYNC_DOMAINS_ORDER: seq<Domain> :=
    [Events, Venues, Organizers, Categories, TicketTypes, Comments, Reviews]

  /** SyncDeleteCapable. */
  predicate DeleteCapable(d: Domain) {
    d.Events? || d.Venues? || d.Organizers? || d.Reviews?
  }

  /** The domains sync_deleted_ids() accepts; it raises on any other. */
  const DELETED_IDS_DOMAINS: set<Domain> := {Events, Venues, Organizers, Reviews}

  /** The service asks sync_deleted_ids() about exactly the domains it accepts. */
  lemma WhitelistsAgree(d: Domain)
    ensures DeleteCapable(d) <==> d in DELETED_IDS_DOMAINS
  {
  }

  /** The default request names each whitelisted domain once, in the order clients rely on. */
  lemma OrderIsWhitelist(d: Domain)
    ensures d in SYNC_DOMAINS_ORDER <==> !d.Unlisted?
    ensures SYNC_DOMAINS_ORDER == [Events, Venues, Organizers] + [Categories, TicketTypes, Comments, Reviews]
  {
    match d {
      case Events => assert d == SYNC_DOMAINS_ORDER[0];
      case Venues => assert d == SYNC_DOMAINS_ORDER[1];
      case Organizers => assert d == SYNC_DOMAINS_ORDER[2];
      case Categories => assert d == SYNC_DOMAINS_ORDER[3];
      case TicketTypes => assert d == SYNC_DOMAINS_ORDER[4];
      case Comments => assert d == SYNC_DOMAINS_ORDER[5];
      case Reviews => assert d == SYNC_DOMAINS_ORDER[6];
      case Unlisted(_) =>
    }
  }

  /** Visible rows satisfy the domain's public filter (published, active, not
      blocked, ...); soft-deleted rows have deleted_at set; the rest are hidden. */
  datatype Standing = Visible | SoftDeleted | Hidden

  datatype Row = Row(stamp: int, standing: Standing, body: int)

  type Table = map<nat, Row>
  type Catalogue = map<Domain, Table>

  function TableOf(cat: Catalogue, d: Domain): Table {
    if d in cat then cat[d] else map[]
  }

  /** A row as a query returns it, with its primary key. */
  datatype Entry = Entry(id: nat, row: Row)

  function StampOf(e: Entry): int { e.row.stamp }

  /** Each domain is read through up to two streams. */
  datatype Stream = Upserts | Deletes

  predicate Serves(d: Domain, s: Stream) {
    s.Upserts? || DeleteCapable(d)
  }

  predicate Feeds(s: Stream, r: Row) {
    match s
    case Upserts => r.standing.Visible?
    case Deletes => r.standing.SoftDeleted?
  }

  /** The rows a stream's WHERE clause selects: the cursor is inclusive. */
  function Selected(t: Table, s: Stream, since: int): set<Entry> {
    set i | i in t && Feeds(s, t[i]) && t[i].stamp >= since :: Entry(i, t[i])
  }

  /** ORDER BY updated_at, id. */
  predicate Before(a: Entry, b: Entry) {
    a.row.stamp < b.row.stamp || (a.row.stamp == b.row.stamp && a.id < b.id)
  }

  ghost predicate Keyed(es: set<Entry>) {
    forall a, b :: a in es && b in es && a.id == b.id ==> a == b
  }

  ghost predicate Ascending(es: seq<Entry>) {
    forall i, j :: 0 <= i < j < |es| ==> Before(es[i], es[j])
  }

  lemma {:induction false} FirstExists(es: set<Entry>)
    requires Keyed(es) && es != {}
    ensures exists m :: m in es && forall e :: e in es && e != m ==> Before(m, e)
    decreases |es|
  {
    var x :| x in es;
    var rest := es - {x};
    if rest == {} {
      assert forall e :: e in es ==> e in rest || e == x;
    } else {
      FirstExists(rest);
      var m :| m in rest && forall e :: e in rest && e != m ==> Before(m, e);
      var f := if Before(x, m) then x else m;
      forall e | e in es && e != f ensures Before(f, e) {
        assert e == x || e in rest;
      }
      assert f in es;
    }
  }

  function First(es: set<Entry>): (m: Entry)
    requires Keyed(es) && es != {}
    ensures m in es && forall e :: e in es && e != m ==> Before(m, e)
  {
    FirstExists(es);
    var m :| m in es && forall e :: e in es && e != m ==> Before(m, e);
    m
  }

  function InOrder(es: set<Entry>): seq<Entry>
    requires Keyed(es)
  {
    if es == {} then [] else [First(es)] + InOrder(es - {First(es)})
  }

  /** The ordered read returns each selected row once, in strictly ascending order. */
  lemma {:induction false} InOrderSorts(es: set<Entry>)
    requires Keyed(es)
    ensures Ascending(InOrder(es))
    ensures forall e :: e in InOrder(es) <==> e in es
    ensures |InOrder(es)| == |es|
  {
    if es != {} {
      var m := First(es);
      var rest, s := InOrder(es - {m}), InOrder(es);
      InOrderSorts(es - {m});
      assert s == [m] + rest;
      forall i, j | 0 <= i < j < |s| ensures Before(s[i], s[j]) {
        assert s[j] == rest[j - 1] && s[j] in rest;
      }
      forall e ensures e in s <==> e in es {
        assert e in s <==> e == m || e in rest;
      }
    }
  }

  function Take<T>(s: seq<T>, n: nat): seq<T> {
    if |s| <= n then s else s[..n]
  }

  /** SELECT ... ORDER BY updated_at, id LIMIT n. */
  function Query(t: Table, s: Stream, since: int, n: nat): seq<Entry> {
    Take(InOrder(Selected(t, s, since)), n)
  }
}
