/** Device rows, what each SQL statement does to them, and the store that runs one request at a time. */
module Devices {
  import opened Prelude

  /** The primary key of `auth_devices`. */
  datatype Key = Key(subject: string, device: string)

  datatype Device = Device(
    trustedAt: Option<int>, primaryAt: Option<int>, ip: Option<string>, agent: Option<string>,
    createdAt: int, updatedAt: int)

  type Table = map<Key, Device>

  datatype Request = Request(key: Key, trusted: bool, primary: bool)

  datatype Outcome = Updated | NotFound

  function Rows(t: Table, subject: string): set<Key> {
    set k | k in t && k.subject == subject
  }

  function Primaries(t: Table, subject: string): set<Key> {
    set k | k in t && k.subject == subject && t[k].primaryAt.Some?
  }

  /** The rows the clearing statement rewrites, with their new content. */
  function Cleared(t: Table, subject: string): Table {
    map k | k in Primaries(t, subject) :: t[k].(primaryAt := None)
  }

  /** The row the final statement writes. */
  function Marked(row: Device, r: Request, at: int): Device {
    row.(trustedAt := if r.trusted then Some(at) else None,
         primaryAt := if r.primary then Some(at) else None,
         updatedAt := at)
  }

  /** Every row the request writes, with its final content. */
  function Writes(t: Table, r: Request, at: int): Table
    requires r.key in t
  {
    var w := if r.primary then Cleared(t, r.key.subject) else map[];
    w[r.key := Marked((t + w)[r.key], r, at)]
  }

  /** The whole request on the rows found at one moment. */
  function Assigned(t: Table, r: Request, at: int): Table {
    if r.key !in t then t else t + Writes(t, r, at)
  }

  function Observed(t: Table, k: Key, ip: Option<string>, agent: Option<string>, at: int): Table {
    if k in t then t[k := t[k].(ip := ip, agent := agent, updatedAt := at)]
    else t[k := Device(None, None, ip, agent, at, at)]
  }

  ghost predicate AtMostOnePrimary(t: Table) {
    forall k1, k2 | k1 in t && k2 in t && k1.subject == k2.subject && t[k1].primaryAt.Some? && t[k2].primaryAt.Some? ::
        k1 == k2
  }

  /** What a request leaves behind, stated on the primaries alone. */
  lemma AssignedPrimaries(t: Table, r: Request, at: int, subject: string)
    ensures r.key !in t ==> Assigned(t, r, at) == t
    ensures r.key in t && subject == r.key.subject ==>
      Primaries(Assigned(t, r, at), subject) == if r.primary then {r.key} else Primaries(t, subject) - {r.key}
    ensures subject != r.key.subject ==> Primaries(Assigned(t, r, at), subject) == Primaries(t, subject)
    ensures Assigned(t, r, at).Keys == t.Keys
  {
  }

  /** What a request does to each row, column by column. */
  lemma AssignedRows(t: Table, r: Request, at: int, k: Key)
    requires k in t && r.key in t
    ensures k in Assigned(t, r, at)
    ensures k == r.key ==>
      var row := Assigned(t, r, at)[k];
      && row.trustedAt == (if r.trusted then Some(at) else None)
      && row.primaryAt == (if r.primary then Some(at) else None)
      && row.updatedAt == at
      && row.ip == t[k].ip && row.agent == t[k].agent && row.createdAt == t[k].createdAt
    ensures k != r.key ==>
      Assigned(t, r, at)[k] ==
        if r.primary && k.subject == r.key.subject then t[k].(primaryAt := None) else t[k]
  {
  }

  /** What an observation does to each row. */
  lemma ObservedRows(t: Table, k: Key, ip: Option<string>, agent: Option<string>, at: int, other: Key)
    ensures k in Observed(t, k, ip, agent, at)
    ensures k in t ==>
      Observed(t, k, ip, agent, at)[k] == Device(t[k].trustedAt, t[k].primaryAt, ip, agent, t[k].createdAt, at)
    ensures k !in t ==> Observed(t, k, ip, agent, at)[k] == Device(None, None, ip, agent, at, at)
    ensures other != k ==>
      && (other in Observed(t, k, ip, agent, at) <==> other in t)
      && (other in t ==> Observed(t, k, ip, agent, at)[other] == t[other])
  {
  }

  lemma AssignedKeepsOnePrimary(t: Table, r: Request, at: int)
    requires AtMostOnePrimary(t)
    ensures AtMostOnePrimary(Assigned(t, r, at))
  {
    forall k1, k2 | k1 in t && k2 in t && k1.subject == k2.subject
        && Assigned(t, r, at)[k1].primaryAt.Some? && Assigned(t, r, at)[k2].primaryAt.Some?
      ensures k1 == k2
    {
      AssignedPrimaries(t, r, at, k1.subject);
      assert k1 in Primaries(Assigned(t, r, at), k1.subject) && k2 in Primaries(Assigned(t, r, at), k1.subject);
    }
  }

  /** Observing a device never touches trust or primary, of this device or any other. */
  lemma ObservedKeepsTrust(t: Table, k: Key, ip: Option<string>, agent: Option<string>, at: int, other: Key)
    ensures other in t ==>
      && other in Observed(t, k, ip, agent, at)
      && Observed(t, k, ip, agent, at)[other].trustedAt == t[other].trustedAt
      && Observed(t, k, ip, agent, at)[other].primaryAt == t[other].primaryAt
      && Observed(t, k, ip, agent, at)[other].createdAt == t[other].createdAt
    ensures k !in t ==>
      Observed(t, k, ip, agent, at)[k].trustedAt.None? && Observed(t, k, ip, agent, at)[k].primaryAt.None?
    ensures Primaries(Observed(t, k, ip, agent, at), other.subject) == Primaries(t, other.subject)
  {
  }

  /** `auth_devices` served one transaction at a time. */
  class DeviceStore {
    var table: Table

    constructor ()
      ensures table == map[]
    {
      table := map[];
    }

    method SetDeviceTrust(r: Request, at: int) returns (outcome: Outcome)
      modifies this
      ensures table == Assigned(old(table), r, at)
      ensures outcome == if r.key in old(table) then Updated else NotFound
      ensures outcome == NotFound ==> table == old(table)
      ensures outcome == Updated && r.primary ==> Primaries(table, r.key.subject) == {r.key}
      ensures outcome == Updated ==> r.key in table
      ensures outcome == Updated ==>
        var row, was := table[r.key], old(table)[r.key];
        && row.trustedAt == (if r.trusted then Some(at) else None)
        && row.primaryAt == (if r.primary then Some(at) else None) && row.updatedAt == at
        && row.ip == was.ip && row.agent == was.agent && row.createdAt == was.createdAt
      ensures forall k | k in old(table) && k != r.key ::
        k in table && table[k] ==
          if outcome == Updated && r.primary && k.subject == r.key.subject then old(table)[k].(primaryAt := None)
          else old(table)[k]
    {
      if r.key in table {
        forall k | k in table { AssignedRows(table, r, at, k); }
      }
      AssignedPrimaries(table, r, at, r.key.subject);
      var locked := Rows(table, r.key.subject);
      if r.key !in locked {
        return NotFound;
      }
      if r.primary {
        table := table + Cleared(table, r.key.subject);
      }
      table := table[r.key := Marked(table[r.key], r, at)];
      outcome := Updated;
    }

    /** `created` compares the two timestamps, so it is also true for a repeat at the same instant. */
    method Observe(k: Key, ip: Option<string>, agent: Option<string>, at: int) returns (created: bool, trusted: bool)
      modifies this
      ensures table == Observed(old(table), k, ip, agent, at)
      ensures created <==> k !in old(table) || old(table)[k].createdAt == at
      ensures trusted <==> k in old(table) && old(table)[k].trustedAt.Some?
      ensures forall s :: Primaries(table, s) == Primaries(old(table), s)
      ensures k in table && table[k].ip == ip && table[k].agent == agent && table[k].updatedAt == at
      ensures trusted <==> table[k].trustedAt.Some?
    {
      forall s ensures Primaries(Observed(table, k, ip, agent, at), s) == Primaries(table, s) {
        ObservedKeepsTrust(table, k, ip, agent, at, Key(s, ""));
      }
      if k in table {
        table := table[k := table[k].(ip := ip, agent := agent, updatedAt := at)];
      } else {
        table := table[k := Device(None, None, ip, agent, at, at)];
      }
      created, trusted := table[k].createdAt == table[k].updatedAt, table[k].trustedAt.Some?;
    }
  }
}
