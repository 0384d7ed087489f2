/**
 * The process-wide pool slot of mcache-core: empty at start, overwritten by
 * every `init`, read by `pool`. Reading an empty slot is the failure
 * "pool not initialized". A handle returned by `pool` is shared, not copied,
 * so replacing the slot later does not change a handle already given out.
 */
module Pool {
  import opened Wrappers

  datatype PoolError = NotInitialized

  /** A connection pool to the store; only its identity matters here. */
  class RedisPool {
    const name: string

    constructor (name: string)
      ensures this.name == name
    {
      this.name := name;
    }
  }

  class Slot {
    var current: Option<RedisPool>

    /** The slot starts empty. */
    constructor ()
      ensures current == None
    {
      current := None;
    }

    /** Install or replace the pool; the most recent one wins. */
    method Init(p: RedisPool)
      modifies this
      ensures current == Some(p)
    {
      current := Some(p);
    }

    /** The current pool, or the failure when none was ever installed. Reading changes nothing. */
    method Get() returns (r: Result<RedisPool, PoolError>)
      ensures current.None? <==> r.Err?
      ensures r.Err? ==> r.error == NotInitialized
      ensures current.Some? ==> r == Ok(current.value)
    {
      if current.None? {
        return Err(NotInitialized);
      }
      return Ok(current.value);
    }
  }

  /** Before any `init`, reading the slot fails. */
  method ReadBeforeInit() returns (r: Result<RedisPool, PoolError>)
    ensures r == Err(NotInitialized)
  {
    var slot := new Slot();
    r := slot.Get();
  }

  /**
   * Two installs in a row: a handle read after the first still names the
   * first pool after the second install, and every later read gives the
   * second pool.
   */
  method ReplaceKeepsOldHandle(a: RedisPool, b: RedisPool) returns (early: Result<RedisPool, PoolError>, late: Result<RedisPool, PoolError>, again: Result<RedisPool, PoolError>)
    ensures early == Ok(a) && late == Ok(b) && again == late
  {
    var slot := new Slot();
    slot.Init(a);
    early := slot.Get();
    slot.Init(b);
    late := slot.Get();
    again := slot.Get();
  }
}
