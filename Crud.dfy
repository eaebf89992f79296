/**
 * The three tables behind `CRUDOperations`, held in memory:
 *   scrape_jobs   id INTEGER PRIMARY KEY AUTOINCREMENT, name UNIQUE, status DEFAULT 'pending';
 *   scraped_data  id INTEGER PRIMARY KEY AUTOINCREMENT, job_id;
 *   user_config   key UNIQUE, written with INSERT OR REPLACE.
 * Timestamp columns and the connection are not modelled.
 */
module Crud {
  import opened Wrappers

  const Pending := "pending"
  const Running := "running"
  const Completed := "completed"
  const Failed := "failed"

  /** A row of scrape_jobs. */
  datatype Job = Job(id: int, name: string, url: string, scraperType: string, status: string)

  /** A row of scraped_data. */
  datatype DataRow = DataRow(id: int, jobId: int, data: string)

  // ---------------------------------------------------------------------------
  // Selecting data rows by job

  /** `SELECT * FROM scraped_data WHERE job_id = j`, in table order. */
  function RowsOf(rows: seq<DataRow>, j: int): seq<DataRow>
  {
    if rows == [] then []
    else
      var last := rows[|rows| - 1];
      RowsOf(rows[..|rows| - 1], j) + (if last.jobId == j then [last] else [])
  }

  /** The rows left by `DELETE FROM scraped_data WHERE job_id = j`, in table order. */
  function RowsWithout(rows: seq<DataRow>, j: int): seq<DataRow>
  {
    if rows == [] then []
    else
      var last := rows[|rows| - 1];
      RowsWithout(rows[..|rows| - 1], j) + (if last.jobId != j then [last] else [])
  }

  /** The selection holds every row of job j as often as the table does, and nothing else. */
  lemma {:induction false} RowsOfCount(rows: seq<DataRow>, j: int)
    ensures forall x :: multiset(RowsOf(rows, j))[x] == if x.jobId == j then multiset(rows)[x] else 0
  {
    if rows != [] {
      var init, last := rows[..|rows| - 1], rows[|rows| - 1];
      RowsOfCount(init, j);
      assert rows == init + [last];
    }
  }

  /** The deletion keeps every row of the other jobs as often as the table does, and no row of job j. */
  lemma {:induction false} RowsWithoutCount(rows: seq<DataRow>, j: int)
    ensures forall x :: multiset(RowsWithout(rows, j))[x] == if x.jobId != j then multiset(rows)[x] else 0
  {
    if rows != [] {
      var init, last := rows[..|rows| - 1], rows[|rows| - 1];
      RowsWithoutCount(init, j);
      assert rows == init + [last];
    }
  }

  /** Selecting and deleting by the same job split the table between them. */
  lemma RowsPartition(rows: seq<DataRow>, j: int)
    ensures multiset(RowsOf(rows, j)) + multiset(RowsWithout(rows, j)) == multiset(rows)
  {
    RowsOfCount(rows, j);
    RowsWithoutCount(rows, j);
    assert forall x :: (multiset(RowsOf(rows, j)) + multiset(RowsWithout(rows, j)))[x] == multiset(rows)[x];
  }

  /** Deleting job j's rows leaves every other job's selection exactly as it was, order included. */
  lemma {:induction false} RowsOfWithout(rows: seq<DataRow>, j: int, k: int)
    requires k != j
    ensures RowsOf(RowsWithout(rows, j), k) == RowsOf(rows, k)
  {
    if rows != [] {
      var init, last := rows[..|rows| - 1], rows[|rows| - 1];
      RowsOfWithout(init, j, k);
      var w := RowsWithout(init, j);
      if last.jobId != j {
        assert RowsWithout(rows, j) == w + [last];
        assert (w + [last])[..|w + [last]| - 1] == w;
      } else {
        assert RowsWithout(rows, j) == w;
      }
    }
  }

  /** After the deletion no row of job j is selected. */
  lemma {:induction false} RowsOfWithoutSelf(rows: seq<DataRow>, j: int)
    ensures RowsOf(RowsWithout(rows, j), j) == []
  {
    if rows != [] {
      var init, last := rows[..|rows| - 1], rows[|rows| - 1];
      RowsOfWithoutSelf(init, j);
      var w := RowsWithout(init, j);
      if last.jobId != j {
        assert RowsWithout(rows, j) == w + [last];
        assert (w + [last])[..|w + [last]| - 1] == w;
      } else {
        assert RowsWithout(rows, j) == w;
      }
    }
  }

  /** Appending one row adds it to its own job's selection, at the end, and to no other. */
  lemma RowsOfAppend(rows: seq<DataRow>, row: DataRow, j: int)
    ensures RowsOf(rows + [row], j) == RowsOf(rows, j) + (if row.jobId == j then [row] else [])
  {
    assert (rows + [row])[..|rows + [row]| - 1] == rows;
  }

  /** Row ids strictly increase along the table. */
  ghost predicate Increasing(rows: seq<DataRow>)
  {
    forall a, b :: 0 <= a < b < |rows| ==> rows[a].id < rows[b].id
  }

  /** Deletion keeps only rows that were in the table, in their order. */
  lemma {:induction false} RowsWithoutIncreasing(rows: seq<DataRow>, j: int)
    requires Increasing(rows)
    ensures Increasing(RowsWithout(rows, j))
    ensures forall x :: x in RowsWithout(rows, j) ==> x in rows
  {
    if rows != [] {
      var init, last := rows[..|rows| - 1], rows[|rows| - 1];
      RowsWithoutIncreasing(init, j);
      var w := RowsWithout(init, j);
      forall x | x in w
        ensures x.id < last.id
      {
        var a :| 0 <= a < |init| && init[a] == x;
      }
    }
  }

  // ---------------------------------------------------------------------------
  // The store

  class Store {
    /** scrape_jobs by primary key. */
    var jobs: map<int, Job>
    /** The largest job id ever handed out (AUTOINCREMENT's sqlite_sequence entry). */
    var lastJobId: int
    /** scraped_data in insertion order. */
    var rows: seq<DataRow>
    /** The largest data row id ever handed out. */
    var lastRowId: int
    /** user_config: key to value. */
    var config: map<string, string>
    /** Every (job id, status) written by `update_job_status`, in order. */
    ghost var statusLog: seq<(int, string)>
    /** Every (job id, data) passed to `insert_scraped_data`, whether or not it was stored. */
    ghost var insertLog: seq<(int, string)>

    /** Keys, ids and names as the table constraints keep them. */
    ghost predicate Valid()
      reads this
    {
      && 0 <= lastJobId && 0 <= lastRowId
      && (forall id :: id in jobs ==> jobs[id].id == id && 1 <= id <= lastJobId)
      && (forall a, b :: a in jobs && b in jobs && jobs[a].name == jobs[b].name ==> a == b)
      && (forall i :: 0 <= i < |rows| ==> 1 <= rows[i].id <= lastRowId)
      && Increasing(rows)
    }

    /** A connection to a new database whose tables were just created. */
    constructor ()
      ensures Valid()
      ensures jobs == map[] && rows == [] && config == map[] && statusLog == [] && insertLog == []
      ensures lastJobId == 0 && lastRowId == 0
    {
      jobs := map[];
      lastJobId := 0;
      rows := [];
      lastRowId := 0;
      config := map[];
      statusLog := [];
      insertLog := [];
    }

    /**
     * `create_scrape_job`: a name already in use violates UNIQUE and yields None with the
     * table untouched; otherwise the job gets the next id and the default status.
     */
    method CreateScrapeJob(name: string, url: string, scraperType: string) returns (id: Option<int>)
      requires Valid()
      modifies this`jobs, this`lastJobId
      ensures Valid()
      ensures (exists k :: k in old(jobs) && old(jobs)[k].name == name) <==> id.None?
      ensures id.None? ==> jobs == old(jobs) && lastJobId == old(lastJobId)
      ensures id.Some? ==>
        && id.value == old(lastJobId) + 1 == lastJobId
        && id.value !in old(jobs)
        && jobs == old(jobs)[id.value := Job(id.value, name, url, scraperType, Pending)]
    {
      if exists k :: k in jobs && jobs[k].name == name {
        return None;
      }
      lastJobId := lastJobId + 1;
      jobs := jobs[lastJobId := Job(lastJobId, name, url, scraperType, Pending)];
      return Some(lastJobId);
    }

    /**
     * `insert_scraped_data`: appends one row with the next id. `failure` stands for the
     * database raising an error, after which nothing is stored. The job id is not checked:
     * the foreign key is declared but not enforced.
     */
    method InsertScrapedData(jobId: int, data: string, failure: bool) returns (ok: bool)
      requires Valid()
      modifies this`rows, this`lastRowId, this`insertLog
      ensures Valid()
      ensures ok == !failure
      ensures insertLog == old(insertLog) + [(jobId, data)]
      ensures ok ==> lastRowId == old(lastRowId) + 1 && rows == old(rows) + [DataRow(lastRowId, jobId, data)]
      ensures !ok ==> rows == old(rows) && lastRowId == old(lastRowId)
    {
      insertLog := insertLog + [(jobId, data)];
      if failure {
        return false;
      }
      lastRowId := lastRowId + 1;
      rows := rows + [DataRow(lastRowId, jobId, data)];
      return true;
    }

    /** `get_scrape_job`: the row with that id, or None. */
    function GetScrapeJob(id: int): (r: Option<Job>)
      reads this
      ensures r.Some? <==> id in jobs
      ensures r.Some? ==> r.value == jobs[id]
      ensures r.Some? && Valid() ==> r.value.id == id
    {
      if id in jobs then Some(jobs[id]) else None
    }

    /** `get_job_data`: the rows of job j; their order is not part of the contract. */
    function GetJobData(j: int): (r: seq<DataRow>)
      reads this
      ensures forall x :: multiset(r)[x] == if x.jobId == j then multiset(rows)[x] else 0
    {
      RowsOfCount(rows, j);
      RowsOf(rows, j)
    }

    /** `update_job_status`: sets the status of that job, if there is one, and reports success either way. */
    method UpdateJobStatus(jobId: int, status: string) returns (ok: bool)
      requires Valid()
      modifies this`jobs, this`statusLog
      ensures Valid()
      ensures ok
      ensures jobs == if jobId in old(jobs) then old(jobs)[jobId := old(jobs)[jobId].(status := status)] else old(jobs)
      ensures statusLog == old(statusLog) + [(jobId, status)]
    {
      if jobId in jobs {
        jobs := jobs[jobId := jobs[jobId].(status := status)];
      }
      statusLog := statusLog + [(jobId, status)];
      return true;
    }

    /** `delete_scrape_job`: removes the job's data rows, then the job; its id is never handed out again. */
    method DeleteScrapeJob(jobId: int) returns (ok: bool)
      requires Valid()
      modifies this`jobs, this`rows
      ensures Valid()
      ensures ok
      ensures jobs == old(jobs) - {jobId}
      ensures rows == RowsWithout(old(rows), jobId)
      ensures GetJobData(jobId) == []
      ensures forall k :: k != jobId ==> GetJobData(k) == old(GetJobData(k))
    {
      RowsOfWithoutSelf(rows, jobId);
      forall k | k != jobId
        ensures RowsOf(RowsWithout(rows, jobId), k) == RowsOf(rows, k)
      {
        RowsOfWithout(rows, jobId, k);
      }
      RowsWithoutIncreasing(rows, jobId);
      var kept := RowsWithout(rows, jobId);
      forall i | 0 <= i < |kept|
        ensures 1 <= kept[i].id <= lastRowId
      {
        assert kept[i] in rows;
      }
      rows := kept;
      jobs := jobs - {jobId};
      return true;
    }

    /** `set_config`: INSERT OR REPLACE on the unique key. */
    method SetConfig(key: string, value: string) returns (ok: bool)
      modifies this`config
      ensures ok
      ensures config == old(config)[key := value]
      ensures GetConfig(key) == Some(value)
      ensures forall k :: k != key ==> GetConfig(k) == old(GetConfig(k))
    {
      config := config[key := value];
      return true;
    }

    /** `get_config`: the stored value, or None for a key never set. */
    function GetConfig(key: string): (r: Option<string>)
      reads this
      ensures r.Some? <==> key in config
      ensures r.Some? ==> r.value == config[key]
    {
      if key in config then Some(config[key]) else None
    }
  }
}
