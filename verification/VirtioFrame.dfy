// What one request may change, and what it appends to the used ring.
module VirtioFrame {
  import opened Bytes
  import opened Results
  import opened GuestRam
  import opened Disk
  import opened VirtioSpec

  /** The guest bytes a validated chain offers the device to write: the read buffer and the status byte. */
  ghost predicate InBuffers(c: Chain, a: nat) {
    (c.kind == 0 && c.addr <= a < c.addr + c.len) || a == c.status
  }

  ghost predicate InUsedRing(queue: nat, num: nat, a: nat) {
    UsedBase(queue, num) <= a < UsedBase(queue, num) + 4 + 8 * num
  }

  ghost predicate QueueOk(queue: nat, num: nat) {
    queue < U32 * 4096 && 0 < num <= MAX_QUEUE
  }

  lemma TransferFrame(w: World, c: Chain, a: nat)
    ensures var w' := Transfer(w, c).0;
      && |w'.mem| == |w.mem|
      && (a < |w.mem| && !(c.kind == 0 && c.addr <= a < c.addr + c.len) ==> w'.mem[a] == w.mem[a])
      && (Transfer(w, c).1.Err? ==> w' == w)
  {
  }

  lemma PublishFrame(mem: seq<byte>, queue: nat, num: nat, head: nat, len: nat, a: nat)
    requires QueueOk(queue, num)
    ensures var m' := Publish(mem, queue, num, head, len).0;
      && |m'| == |mem|
      && (a < |mem| && !InUsedRing(queue, num, a) ==> m'[a] == mem[a])
  {
    hide AlignUp, ToLe, Le;
  }

  /** A request that fails or succeeds touches only its own buffers and the used ring. */
  lemma RequestFrame(w: World, queue: nat, num: nat, head: nat, a: nat)
    requires QueueOk(queue, num)
    ensures |ProcessRequest(w, queue, num, head).0.mem| == |w.mem|
    ensures a < |w.mem| && ProcessRequest(w, queue, num, head).0.mem[a] != w.mem[a]
      ==> Validate(w.mem, queue, num, head).Ok?
          && (InBuffers(Validate(w.mem, queue, num, head).value, a) || InUsedRing(queue, num, a))
  {
    hide Validate, Transfer, Publish, AlignUp;
    var v := Validate(w.mem, queue, num, head);
    if v.Ok? {
      var c := v.value;
      var (w', r) := Transfer(w, c);
      TransferFrame(w, c, a);
      if r.Ok? {
        var m1 := WriteMem(w'.mem, c.status, [r.value]).0;
        PublishFrame(m1, queue, num, head, c.len, a);
      }
    }
  }

  /** A request changes the disk exactly when it is a validated write that the host accepts. */
  lemma RequestDisk(w: World, queue: nat, num: nat, head: nat)
    requires QueueOk(queue, num)
    ensures var v := Validate(w.mem, queue, num, head);
      ProcessRequest(w, queue, num, head).0.disk ==
        if v.Ok? && v.value.kind == 1 && InRange(w.mem, v.value.addr, v.value.len)
          && 512 * v.value.sector % U64 + v.value.len <= 0x7fff_ffff_ffff_ffff
        then DiskWrite(w.disk, 512 * v.value.sector % U64, w.mem[v.value.addr..v.value.addr + v.value.len])
        else w.disk
  {
    hide Validate, Publish, AlignUp, DiskWrite, DiskRead;
  }

  // ---- The used ring ----

  /** Publishing advances the index by one and fills exactly the entry it names, or leaves the index alone. */
  lemma PublishEffect(mem: seq<byte>, queue: nat, num: nat, head: nat, len: nat)
    requires QueueOk(queue, num) && head < U32 && len < U32
    requires UsedBase(queue, num) + 4 <= |mem|
    ensures var used := UsedBase(queue, num);
      var (m', r) := Publish(mem, queue, num, head, len);
      var index := LeAt(mem, used + 2, 2);
      var entry := UsedEntry(queue, num, index);
      && |m'| == |mem|
      && LeAt(m', used + 2, 2) == (if r.Ok? then (index + 1) % U16 else index)
      && (r.Ok? ==> entry + 8 <= |mem| && LeAt(m', entry, 4) == head && LeAt(m', entry + 4, 4) == len)
      && (forall a :: 0 <= a < |mem| && !(used + 2 <= a < used + 4) && !(entry <= a < entry + 8) ==> m'[a] == mem[a])
  {
    hide AlignUp, ToLe, Le;
    var used := UsedBase(queue, num);
    var index := LeAt(mem, used + 2, 2);
    if !InRange(mem, used + 2, 2) { return; }
    var entry := UsedEntry(queue, num, index);
    if InRange(mem, entry, 4) {
      var m1 := Store(mem, entry, ToLe(head, 4));
      LeAtSame(mem, m1, used + 2, 2);
      if InRange(m1, entry + 4, 4) {
        var m2 := Store(m1, entry + 4, ToLe(len, 4));
        LeAtSame(m1, m2, used + 2, 2);
        var m3 := Store(m2, used + 2, ToLe((index + 1) % U16, 2));
        PowValues();
        LeAtStored(m2, used + 2, ToLe((index + 1) % U16, 2));
        LeOfToLe((index + 1) % U16, 2);
        LeAtStored(mem, entry, ToLe(head, 4));
        LeOfToLe(head, 4);
        LeAtSame(m1, m3, entry, 4);
        LeAtStored(m1, entry + 4, ToLe(len, 4));
        LeOfToLe(len, 4);
        LeAtSame(m2, m3, entry + 4, 4);
      }
    }
  }
}
