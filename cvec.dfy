/** The growable vectors of the C interpreter: `int_vec` (16-bit items with a length and a
    capacity, used for the loop-start stack, both jump tables and the tape) and `commands_t`
    (the command buffer). Both keep a heap array of `cap` zero-filled slots, of which the
    first `len` are in use. */
module CVec {
  import opened Commands

  /** What `insert_vec` does to the whole slot array `t`: when `key` is past the end the
      array first grows by `key` zero slots, then slot `key` is set. `len` is not involved. */
  function InsertSpec(t: seq<nat>, key: nat, val: nat): (r: seq<nat>)
    requires |t| > 0
    ensures |r| == if key < |t| then |t| else |t| + key
    ensures key < |r| && r[key] == val
    ensures forall k :: 0 <= k < |r| && k != key ==> r[k] == if k < |t| then t[k] else 0
  {
    if key < |t| then t[key := val] else (t + Zeros(key))[key := val]
  }

  /** `int_vec`. */
  class IntVec {
    var items: array<nat>
    var len: nat
    var cap: nat

    ghost predicate Valid()
      reads this
    {
      items.Length == cap && len <= cap && cap > 0
    }

    /** The slots in use. */
    function Contents(): (s: seq<nat>)
      reads this, items
      requires Valid()
      ensures |s| == len
    {
      items[..len]
    }

    /** `create_vec`: eight zeroed slots, none in use. */
    constructor ()
      ensures Valid() && fresh(items)
      ensures len == 0 && cap == 8 && items[..] == Zeros(8)
    {
      items := new nat[8](_ => 0);
      len := 0;
      cap := 8;
    }

    /** `extend_vec`: `size` more zeroed slots at the end. */
    method Extend(size: nat)
      requires Valid()
      modifies this
      ensures Valid() && fresh(items)
      ensures len == old(len) && cap == old(cap) + size
      ensures items[..] == old(items[..]) + Zeros(size)
    {
      var a := new nat[cap + size](_ => 0);
      forall k | 0 <= k < cap {
        a[k] := items[k];
      }
      items := a;
      cap := cap + size;
    }

    /** `insert_vec`: set slot `key`, growing by `key` slots when it is past the end. */
    method Insert(key: nat, val: nat)
      requires Valid()
      modifies this, items
      ensures Valid() && (items == old(items) || fresh(items))
      ensures len == old(len)
      ensures items[..] == InsertSpec(old(items[..]), key, val)
    {
      if cap <= key {
        Extend(key);
      }
      items[key] := val;
    }

    /** `push_vec`: append, doubling the capacity when it is full. */
    method Push(val: nat)
      requires Valid()
      modifies this, items
      ensures Valid() && (items == old(items) || fresh(items))
      ensures Contents() == old(Contents()) + [val]
      ensures cap == if old(len) < old(cap) then old(cap) else 2 * old(cap)
      ensures forall k :: len <= k < cap ==> items[k] == if k < old(cap) then old(items[k]) else 0
    {
      if cap <= len {
        Extend(cap);
      }
      items[len] := val;
      len := len + 1;
    }

    /** `pop_vec`: remove and return the last item, or 0 when there is none. */
    method Pop() returns (v: nat)
      requires Valid()
      modifies this`len
      ensures Valid()
      ensures old(len) == 0 ==> v == 0 && len == 0
      ensures old(len) > 0 ==> v == old(Contents())[old(len) - 1] && Contents() == old(Contents())[..old(len) - 1]
    {
      if len == 0 {
        return 0;
      }
      len := len - 1;
      v := items[len];
    }
  }

  /** A zeroed `command_t`: kind 0 is LEFT. */
  const Blank := Cmd(Left, 0)

  /** `commands_t`. */
  class CommandBuffer {
    var items: array<Cmd>
    var len: nat
    var cap: nat

    ghost predicate Valid()
      reads this
    {
      items.Length == cap && len <= cap && cap > 0
    }

    function Contents(): (s: seq<Cmd>)
      reads this, items
      requires Valid()
      ensures |s| == len
    {
      items[..len]
    }

    /** `create_commands`: eight zeroed slots, none in use. */
    constructor ()
      ensures Valid() && fresh(items)
      ensures len == 0 && cap == 8 && items[..] == seq(8, _ => Blank)
    {
      items := new Cmd[8](_ => Blank);
      len := 0;
      cap := 8;
    }

    /** `resize_commands`: grow to `newCap` slots, zeroing the new ones. */
    method Resize(newCap: nat)
      requires Valid() && cap <= newCap
      modifies this
      ensures Valid() && fresh(items)
      ensures len == old(len) && cap == newCap
      ensures items[..] == old(items[..]) + seq(newCap - old(cap), _ => Blank)
    {
      var a := new Cmd[newCap](_ => Blank);
      forall k | 0 <= k < cap {
        a[k] := items[k];
      }
      items := a;
      cap := newCap;
    }

    /** `push_commands`: append, doubling the capacity when it is full. */
    method Push(c: Cmd)
      requires Valid()
      modifies this, items
      ensures Valid() && (items == old(items) || fresh(items))
      ensures Contents() == old(Contents()) + [c]
      ensures cap == if old(len) < old(cap) then old(cap) else 2 * old(cap)
    {
      if cap <= len {
        Resize(cap * 2);
      }
      items[len] := c;
      len := len + 1;
    }

    /** `pop_commands`: remove and return the last command, or nothing when empty. */
    method Pop() returns (r: Option<Cmd>)
      requires Valid()
      modifies this`len
      ensures Valid()
      ensures old(len) == 0 ==> r == None && len == 0
      ensures old(len) > 0 ==> r == Some(old(Contents())[old(len) - 1]) && Contents() == old(Contents())[..old(len) - 1]
    {
      if len == 0 {
        return None;
      }
      len := len - 1;
      r := Some(items[len]);
    }
  }
}
