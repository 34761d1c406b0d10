/** The world the services act on: Redis, the job queue, the store, the database, the broker and the clock. */
module Environments {
  import opened Pricing
  import opened Sums
  import opened Stock
  import opened Orders
  import Shop

  /** A reservation call's reply; a failed call says nothing about what the store did. */
  datatype ReserveReply = Answer(tracked: bool, reserved: bool) | CallFailed

  class Environment {
    var now: int
    var catalog: Catalog
    var redis: Shop.Keyspace
    var jobs: Shop.Queue
    var sent: seq<Shop.Reminder>
    var counters: Counters
    var orders: seq<Order>
    var log: seq<Row>
    var inflight: seq<Parcel>
    var cache: map<string, Cached>
    var mail: seq<Mail>
    ghost var lost: seq<Parcel>
    ghost var returned: seq<nat>

    constructor (now: int, catalog: Catalog, counters: Counters)
      ensures State() == Opening(Shop.Opening(now, catalog), counters)
    {
      this.now, this.catalog, this.counters := now, catalog, counters;
      redis, jobs, sent, orders, log, inflight, cache, mail := map[], map[], [], [], [], [], map[], [];
      lost, returned := [], [];
    }

    ghost function ShopState(): Shop.Shop
      reads this
    {
      Shop.Shop(now, catalog, redis, jobs, sent)
    }

    ghost function State(): World
      reads this
    {
      World(ShopState(), counters, orders, log, inflight, cache, mail, lost, returned)
    }

    // ---- Redis hashes ----

    /** The fields of a hash in whatever order Redis lists them. */
    method Hgetall(key: Shop.RedisKey) returns (fields: seq<string>)
      ensures Enumerates(fields, Shop.Hgetall(redis, key).Keys)
    {
      fields := [];
      var left := Shop.Hgetall(redis, key).Keys;
      while left != {}
        invariant left <= Shop.Hgetall(redis, key).Keys
        invariant Enumerates(fields, Shop.Hgetall(redis, key).Keys - left)
        decreases left
      {
        var f :| f in left;
        fields := fields + [f];
        left := left - {f};
      }
    }

    method Hset(key: Shop.RedisKey, field: string, it: Shop.CartItem)
      modifies this`redis
      ensures redis == Shop.Hset(old(redis), key, field, it)
    {
      redis := Shop.Hset(redis, key, field, it);
    }

    method Hdel(key: Shop.RedisKey, field: string)
      modifies this`redis
      ensures redis == Shop.Hdel(old(redis), key, field)
    {
      redis := Shop.Hdel(redis, key, field);
    }

    method Expire(key: Shop.RedisKey, ttl: int)
      modifies this`redis
      ensures redis == Shop.Expire(old(redis), key, now + ttl)
    {
      redis := Shop.Expire(redis, key, now + ttl);
    }

    // ---- The job queue ----

    method AddJob(id: Shop.JobId, job: Shop.Job)
      modifies this`jobs
      ensures jobs == Shop.AddJob(old(jobs), id, job)
    {
      jobs := Shop.AddJob(jobs, id, job);
    }

    method RemoveJob(id: Shop.JobId)
      modifies this`jobs
      ensures jobs == old(jobs) - {id}
    {
      jobs := jobs - {id};
    }

    // ---- The store ----

    method GetStoreItem(productId: string) returns (fetch: Fetch)
      ensures fetch == Lookup(catalog, productId)
    {
      fetch := Lookup(catalog, productId);
    }

    /** Checks and takes stock in one go; the call may never arrive, or its reply may get lost. */
    method AttemptReserveStock(p: Parcel, fault: CallFault) returns (reply: ReserveReply)
      modifies this`counters
      ensures counters == if !fault.NeverArrives? && Covers(old(counters), p) then TakeOut(old(counters), p) else old(counters)
      ensures reply == if fault.Fine? then Answer(p.key in old(counters), Covers(old(counters), p)) else CallFailed
    {
      var tracked, covered := p.key in counters, Covers(counters, p);
      if !fault.NeverArrives? && covered {
        counters := TakeOut(counters, p);
      }
      reply := if fault.Fine? then Answer(tracked, covered) else CallFailed;
    }

    method ReturnStock(p: Parcel, fails: bool)
      modifies this`counters, this`lost
      ensures counters == if fails then old(counters) else PutBack(old(counters), p)
      ensures lost == if fails then old(lost) + [p] else old(lost)
    {
      if fails {
        lost := lost + [p];
      } else {
        counters := PutBack(counters, p);
      }
    }
  }
}
