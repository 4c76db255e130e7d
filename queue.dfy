/**
 * `Queue` of `meteo/filters/queue_structure.py`: a FIFO list mutated in
 * place (append at the end, pop at the front), and the queue-based
 * `CompositeFilter` that drains it, applies each filter, and refills it.
 */
module FilterQueue {
  import opened Wrappers
  import opened Tables
  import opened Filters

  /** The `IndexError` raised by `dequeue` on an empty queue. */
  datatype QueueError = EmptyQueue

  class Queue<T> {
    /** `_items`: the front of the queue is index 0. */
    var items: seq<T>

    /** `__init__`: an empty queue. */
    constructor ()
      ensures items == [] && Size() == 0 && IsEmpty()
    {
      items := [];
    }

    /** `enqueue`: the item goes to the back; nothing else moves. */
    method Enqueue(item: T)
      modifies this
      ensures items == old(items) + [item]
      ensures Size() == old(Size()) + 1
    {
      items := items + [item];
    }

    /**
     * `dequeue`: removes and returns the oldest item, the one `peek` shows;
     * on an empty queue it fails and changes nothing.
     */
    method Dequeue() returns (r: Result<T, QueueError>)
      modifies this
      ensures old(items) == [] ==> r == Err(EmptyQueue) && items == old(items)
      ensures old(items) != [] ==> r == Ok(old(items)[0]) && items == old(items)[1..]
      ensures r.Ok? ==> old(items) == [r.value] + items
    {
      if IsEmpty() {
        return Err(EmptyQueue);
      }
      r := Ok(items[0]);
      items := items[1..];
    }

    /** `peek`: the oldest item without removing it, `None` when empty. */
    function Peek(): (r: Option<T>)
      reads this
      ensures r.None? <==> IsEmpty()
      ensures r.Some? ==> |items| > 0 && r.value == items[0]
    {
      if IsEmpty() then None else Some(items[0])
    }

    /** `is_empty`. */
    function IsEmpty(): (b: bool)
      reads this
      ensures b <==> Size() == 0
    {
      |items| == 0
    }

    /** `size`: the number of queued items. */
    function Size(): (n: nat)
      reads this
      ensures n == 0 <==> items == []
    {
      |items|
    }

    /** `__len__`: the same count as `size`. */
    function Len(): (n: nat)
      reads this
      ensures n == Size()
    {
      Size()
    }

    /** `clear`: empties the queue. */
    method Clear()
      modifies this
      ensures items == [] && IsEmpty()
    {
      items := [];
    }
  }

  /** Running `filters` one after the other with `apply`, stopping at the first error. */
  ghost function Fold<F>(filters: seq<F>, apply: (F, Table) -> Result<Table, TableError>, t: Table): Result<Table, TableError>
  {
    if filters == [] then Ok(t)
    else
      match apply(filters[0], t)
      case Err(e) => Err(e)
      case Ok(next) => Fold(filters[1..], apply, next)
  }

  /** How many filters the drain takes out of the queue: all of them, or up to and including the first that fails. */
  ghost function Dequeued<F>(filters: seq<F>, apply: (F, Table) -> Result<Table, TableError>, t: Table): (n: nat)
    ensures n <= |filters|
    ensures Fold(filters, apply, t).Ok? ==> n == |filters|
    ensures Fold(filters, apply, t).Err? ==> n > 0
  {
    if filters == [] then 0
    else
      match apply(filters[0], t)
      case Err(_) => 1
      case Ok(next) => 1 + Dequeued(filters[1..], apply, next)
  }

  /** The fold with `Filter.filter` is the composite's left fold. */
  lemma {:induction false} ApplyInOrderIsFold(filters: seq<Filter>, t: Table)
    ensures ApplyInOrder(filters, t) == Fold(filters, Apply, t)
  {
    if filters != [] {
      match Apply(filters[0], t)
      case Err(e) =>
      case Ok(next) => ApplyInOrderIsFold(filters[1..], next);
    }
  }

  /** The `dequeue` docstring's example: after enqueuing `a` then `b`, they come out as `a` then `b`, then the queue is empty. */
  method FifoExample<T>(a: T, b: T) returns (first: Result<T, QueueError>, second: Result<T, QueueError>, third: Result<T, QueueError>)
    ensures first == Ok(a) && second == Ok(b) && third == Err(EmptyQueue)
  {
    var q := new Queue<T>();
    q.Enqueue(a);
    q.Enqueue(b);
    first := q.Dequeue();
    second := q.Dequeue();
    third := q.Dequeue();
  }

  /**
   * The `CompositeFilter` that keeps its filters in a `Queue`. Filtering
   * dequeues every filter, applies it to the running table, then enqueues
   * them all again so the composite can be reused.
   */
  class QueueCompositeFilter {
    const filterQueue: Queue<Filter>

    /** `__init__(filters)`: one `add_filter` per filter, in order. */
    constructor (filters: seq<Filter>)
      ensures fresh(filterQueue) && filterQueue.items == filters
    {
      filterQueue := new Queue();
      new;
      for i := 0 to |filters|
        invariant fresh(filterQueue) && filterQueue.items == filters[..i]
      {
        AddFilter(filters[i]);
        assert filters[..i + 1] == filters[..i] + [filters[i]];
      }
      assert filters[..|filters|] == filters;
    }

    /** `add_filter`: the filter is applied after every filter already there. */
    method AddFilter(f: Filter)
      modifies filterQueue
      ensures filterQueue.items == old(filterQueue.items) + [f]
    {
      filterQueue.Enqueue(f);
    }

    /**
     * `filter`: the left fold of the queued filters over `df`, in FIFO order.
     * On success the queue holds the same filters as before. An error from a
     * filter propagates at once: the filters dequeued so far, the failing one
     * included, are not put back.
     */
    method Filter(df: Table) returns (r: Result<Table, TableError>)
      modifies filterQueue
      ensures r == ApplyInOrder(old(filterQueue.items), df)
      ensures r.Ok? ==> filterQueue.items == old(filterQueue.items)
      ensures r.Err? ==> filterQueue.items == old(filterQueue.items)[Dequeued(old(filterQueue.items), Apply, df)..]
    {
      var taken;
      r, taken := Drain(filterQueue, df, Apply);
      ApplyInOrderIsFold(old(filterQueue.items), df);
      if r.Ok? {
        Refill(filterQueue, taken);
      }
    }

    /**
     * `filter` as its documentation describes it: the same result, and the
     * queue holds the same filters in the same order afterwards, whether or
     * not a filter failed.
     */
    method FilterKeepingFilters(df: Table) returns (r: Result<Table, TableError>)
      modifies filterQueue
      ensures r == ApplyInOrder(old(filterQueue.items), df)
      ensures filterQueue.items == old(filterQueue.items)
    {
      var taken;
      r, taken := Drain(filterQueue, df, Apply);
      ApplyInOrderIsFold(old(filterQueue.items), df);
      var rest := TakeAll(filterQueue);
      Refill(filterQueue, taken + rest);
    }

    /**
     * The `while not is_empty()` loop: dequeues each filter and applies it
     * to the running table; the first error stops it. `taken` holds every
     * filter dequeued, the failing one included.
     */
    static method Drain<F>(q: Queue<F>, df: Table, apply: (F, Table) -> Result<Table, TableError>)
      returns (r: Result<Table, TableError>, taken: seq<F>)
      modifies q
      ensures r == Fold(old(q.items), apply, df)
      ensures old(q.items) == taken + q.items
      ensures r.Ok? ==> q.items == []
      ensures |taken| == Dequeued(old(q.items), apply, df)
    {
      ghost var all := q.items;
      var processed := df;
      taken := [];
      while !q.IsEmpty()
        invariant all == taken + q.items
        invariant Fold(q.items, apply, processed) == Fold(all, apply, df)
        invariant |taken| + Dequeued(q.items, apply, processed) == Dequeued(all, apply, df)
        decreases |q.items|
      {
        ghost var before := q.items;
        var d := q.Dequeue();
        var f := d.value;
        assert before == [f] + q.items;
        var step := apply(f, processed);
        taken := taken + [f];
        if step.Err? {
          return Err(step.error), taken;
        }
        assert Fold(before, apply, processed) == Fold(q.items, apply, step.value);
        assert Dequeued(before, apply, processed) == 1 + Dequeued(q.items, apply, step.value);
        processed := step.value;
      }
      return Ok(processed), taken;
    }

    /** Dequeues everything left, in order. */
    static method TakeAll<F>(q: Queue<F>) returns (rest: seq<F>)
      modifies q
      ensures rest == old(q.items) && q.items == []
    {
      rest := [];
      while !q.IsEmpty()
        invariant old(q.items) == rest + q.items
        decreases |q.items|
      {
        var d := q.Dequeue();
        rest := rest + [d.value];
      }
    }

    /** The loop that puts the dequeued filters back, in the order they came out. */
    static method Refill(q: Queue<Filter>, filters: seq<Filter>)
      modifies q
      ensures q.items == old(q.items) + filters
    {
      for i := 0 to |filters|
        invariant q.items == old(q.items) + filters[..i]
      {
        q.Enqueue(filters[i]);
        assert filters[..i + 1] == filters[..i] + [filters[i]];
      }
      assert filters[..|filters|] == filters;
    }

    /** `is_empty`: no filter queued. */
    function IsEmpty(): (b: bool)
      reads filterQueue
      ensures b <==> filterQueue.items == []
    {
      filterQueue.IsEmpty()
    }

    /** `size`: the number of queued filters. */
    function Size(): (n: nat)
      reads filterQueue
      ensures n == |filterQueue.items|
    {
      filterQueue.Size()
    }

    /** `clear_filters`: drops every filter. */
    method ClearFilters()
      modifies filterQueue
      ensures filterQueue.items == []
    {
      filterQueue.Clear();
    }
  }

  /**
   * A composite of a keyword filter on a column the table lacks, then the
   * meteo filter: `filter` fails on the first, and afterwards only the meteo
   * filter is left in the queue.
   */
  method FailingFilterLosesFilters(t: Table, column: string) returns (r: Result<Table, TableError>, left: seq<Filter>)
    requires !HasColumn(t, column)
    ensures r == Err(MissingColumn(column))
    ensures left == [Meteo]
  {
    var composite := new QueueCompositeFilter([Keyword(column, "meteo", None), Meteo]);
    r := composite.Filter(t);
    left := composite.filterQueue.items;
  }
}
