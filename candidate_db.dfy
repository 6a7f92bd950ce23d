/**
 * The master candidate table of `db-handler.py`: one record per email address
 * (the table's primary key), inserted with an application count of 1 and bumped on
 * every update. The SQLite file becomes a map from email to record; the clock read
 * for `last_applied_date` is a parameter.
 */
module CandidateStore {
  import opened Wrappers
  import opened Calendar

  /** One row of `candidates`, in column order. */
  datatype Candidate = Candidate(email: string, name: string, phone: string, experience: string,
                                 lastAppliedDate: string, resumePath: string, applicationCount: int)

  /** The five keys `upsert_candidate` reads from its `data` dictionary. */
  const RequiredKeys: set<string> := {"email", "name", "phone", "experience", "resume_path"}

  /** The `email` column is the primary key: each record sits under its own email. */
  predicate Keyed(table: map<string, Candidate>) {
    forall e :: e in table ==> table[e].email == e
  }

  /** The record an insert writes: the given fields, `now` as text and a count of 1. */
  function NewRecord(data: map<string, string>, now: Moment): Candidate
    requires RequiredKeys <= data.Keys
  {
    Candidate(data["email"], data["name"], data["phone"], data["experience"],
              FormatTimestamp(now), data["resume_path"], 1)
  }

  /** The record an update leaves: new fields and date, the same email, one more application. */
  function UpdatedRecord(prior: Candidate, data: map<string, string>, now: Moment): Candidate
    requires RequiredKeys <= data.Keys
  {
    Candidate(prior.email, data["name"], data["phone"], data["experience"],
              FormatTimestamp(now), data["resume_path"], prior.applicationCount + 1)
  }

  /**
   * `upsert_candidate` on a table: the result flag and the table afterwards. A missing
   * key raises before any statement runs; an insert of a present email violates the
   * primary key; an update of an absent email matches no row and still succeeds.
   */
  function Upsert(table: map<string, Candidate>, data: map<string, string>, isUpdate: bool, now: Moment)
    : (bool, map<string, Candidate>)
  {
    if !(RequiredKeys <= data.Keys) then (false, table)
    else
      var e := data["email"];
      if isUpdate then
        if e in table then (true, table[e := UpdatedRecord(table[e], data, now)]) else (true, table)
      else if e in table then (false, table)
      else (true, table[e := NewRecord(data, now)])
  }

  /** The primary key survives every upsert. */
  lemma UpsertKeepsKeys(table: map<string, Candidate>, data: map<string, string>, isUpdate: bool, now: Moment)
    requires Keyed(table)
    ensures Keyed(Upsert(table, data, isUpdate, now).1)
  {
  }

  /** Inserting a new email creates exactly its record, with count 1 and `now` as the date. */
  lemma InsertNewEmail(table: map<string, Candidate>, data: map<string, string>, now: Moment)
    requires RequiredKeys <= data.Keys && data["email"] !in table
    ensures var (ok, after) := Upsert(table, data, false, now);
      && ok
      && after.Keys == table.Keys + {data["email"]}
      && after[data["email"]].applicationCount == 1
      && after[data["email"]].lastAppliedDate == FormatTimestamp(now)
      && after[data["email"]].email == data["email"]
      && after[data["email"]].name == data["name"] && after[data["email"]].phone == data["phone"]
      && after[data["email"]].experience == data["experience"]
      && after[data["email"]].resumePath == data["resume_path"]
  {
  }

  /** A second insert of the same email is refused and changes nothing. */
  lemma InsertDuplicateRejected(table: map<string, Candidate>, data: map<string, string>, now: Moment)
    requires RequiredKeys <= data.Keys && data["email"] in table
    ensures Upsert(table, data, false, now) == (false, table)
  {
  }

  /** Updating a present email overwrites its fields and adds exactly one to its count. */
  lemma UpdatePresentEmail(table: map<string, Candidate>, data: map<string, string>, now: Moment)
    requires Keyed(table)
    requires RequiredKeys <= data.Keys && data["email"] in table
    ensures var (ok, after) := Upsert(table, data, true, now);
      var e := data["email"];
      && ok
      && after.Keys == table.Keys
      && after[e].email == e
      && after[e].name == data["name"] && after[e].phone == data["phone"]
      && after[e].experience == data["experience"] && after[e].resumePath == data["resume_path"]
      && after[e].lastAppliedDate == FormatTimestamp(now)
      && after[e].applicationCount == table[e].applicationCount + 1
  {
  }

  /** Updating an absent email changes nothing and still reports success. */
  lemma UpdateAbsentEmail(table: map<string, Candidate>, data: map<string, string>, now: Moment)
    requires RequiredKeys <= data.Keys && data["email"] !in table
    ensures Upsert(table, data, true, now) == (true, table)
  {
  }

  /** A dictionary without one of the five keys fails and changes nothing. */
  lemma MissingKeyFails(table: map<string, Candidate>, data: map<string, string>, isUpdate: bool, now: Moment)
    requires !(RequiredKeys <= data.Keys)
    ensures Upsert(table, data, isUpdate, now) == (false, table)
  {
  }

  /** Records under every other email are untouched by either operation. */
  lemma OthersUntouched(table: map<string, Candidate>, data: map<string, string>, isUpdate: bool,
                        now: Moment, other: string)
    requires "email" in data ==> other != data["email"]
    ensures var after := Upsert(table, data, isUpdate, now).1;
      && (other in after <==> other in table)
      && (other in table ==> after[other] == table[other])
  {
  }

  /** The total number of applications over a set of emails. */
  ghost function TotalApplications(table: map<string, Candidate>, emails: set<string>): int
    requires emails <= table.Keys
    decreases emails
  {
    if emails == {} then 0
    else
      var e :| e in emails;
      table[e].applicationCount + TotalApplications(table, emails - {e})
  }

  /** `TotalApplications` does not depend on the order in which emails are taken. */
  lemma {:induction false} TotalWithout(table: map<string, Candidate>, emails: set<string>, e: string)
    requires emails <= table.Keys && e in emails
    ensures TotalApplications(table, emails) == table[e].applicationCount + TotalApplications(table, emails - {e})
    decreases emails
  {
    var x :| x in emails && TotalApplications(table, emails) ==
      table[x].applicationCount + TotalApplications(table, emails - {x});
    if x != e {
      TotalWithout(table, emails - {x}, e);
      TotalWithout(table, emails - {e}, x);
      assert emails - {x} - {e} == emails - {e} - {x};
    }
  }

  /** Totals agree over emails whose records two tables share. */
  lemma {:induction false} TotalOfSameRecords(t1: map<string, Candidate>, t2: map<string, Candidate>,
                                              emails: set<string>)
    requires emails <= t1.Keys && emails <= t2.Keys
    requires forall e :: e in emails ==> t1[e].applicationCount == t2[e].applicationCount
    ensures TotalApplications(t1, emails) == TotalApplications(t2, emails)
    decreases emails
  {
    if emails != {} {
      var e :| e in emails;
      TotalWithout(t1, emails, e);
      TotalWithout(t2, emails, e);
      TotalOfSameRecords(t1, t2, emails - {e});
    }
  }

  /** Every successful insert or update of a present email adds exactly one application in total. */
  lemma ApplicationsGrowByOne(table: map<string, Candidate>, data: map<string, string>, isUpdate: bool,
                              now: Moment)
    requires RequiredKeys <= data.Keys
    requires isUpdate ==> data["email"] in table
    ensures var (ok, after) := Upsert(table, data, isUpdate, now);
      ok ==> TotalApplications(after, after.Keys) == TotalApplications(table, table.Keys) + 1
  {
    var (ok, after) := Upsert(table, data, isUpdate, now);
    var e := data["email"];
    if ok {
      assert e in after;
      TotalWithout(after, after.Keys, e);
      assert after.Keys - {e} <= table.Keys;
      TotalOfSameRecords(after, table, after.Keys - {e});
      if isUpdate {
        assert after.Keys == table.Keys;
        TotalWithout(table, table.Keys, e);
      } else {
        assert table.Keys == after.Keys - {e};
      }
    }
  }

  class CandidateDB {
    /** The `candidates` table, keyed by email. */
    var table: map<string, Candidate>

    predicate Valid()
      reads this
    {
      Keyed(table)
    }

    /** `_init_db`: the table is created when missing and kept when it already exists. */
    constructor (existing: map<string, Candidate>)
      requires Keyed(existing)
      ensures Valid() && table == existing
    {
      table := existing;
    }

    /** `get_candidate`: the stored record, or `None` for an absent email. */
    method GetCandidate(email: string) returns (r: Option<Candidate>)
      requires Valid()
      ensures email !in table ==> r == None
      ensures email in table ==> r == Some(table[email]) && r.value.email == email
    {
      if email in table {
        return Some(table[email]);
      }
      return None;
    }

    /** `upsert_candidate`, with `now` the moment of the call. */
    method UpsertCandidate(data: map<string, string>, isUpdate: bool, now: Moment) returns (ok: bool)
      requires Valid()
      modifies this
      ensures Valid()
      ensures (ok, table) == Upsert(old(table), data, isUpdate, now)
    {
      if !(RequiredKeys <= data.Keys) {
        return false;
      }
      var e := data["email"];
      if isUpdate {
        if e in table {
          table := table[e := UpdatedRecord(table[e], data, now)];
        }
      } else {
        if e in table {
          return false;
        }
        table := table[e := NewRecord(data, now)];
      }
      return true;
    }
  }
}
