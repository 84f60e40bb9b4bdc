// The virtio block device as the VMM runs it: registers updated in place over
// shared guest memory and a host file (crates/vmm).
module VirtioDevice {
  import opened Bytes
  import opened Bits
  import opened Results
  import opened GuestRam
  import opened Disk
  import opened VirtioSpec

  class VirtioBlock {
    const disk: RawDiskImage
    var queueNum: nat
    var queuePfn: nat
    var status: nat
    var lastAvail: nat

    constructor (disk: RawDiskImage)
      ensures this.disk == disk
      ensures queueNum == MAX_QUEUE && queuePfn == 0 && status == 0 && lastAvail == 0
    {
      this.disk := disk;
      queueNum, queuePfn, status, lastAvail := MAX_QUEUE, 0, 0, 0;
    }

    ghost predicate Valid(memory: GuestMemory)
      reads this, memory
    {
      memory.Valid() && queueNum <= MAX_QUEUE && queuePfn < U32 && status < U32 && lastAvail < U16
    }

    ghost function World(memory: GuestMemory): World
      reads disk, memory, memory.bytes
    {
      VirtioSpec.World(memory.Contents(), disk.contents)
    }

    ghost function Snapshot(memory: GuestMemory): State
      reads this, disk, memory, memory.bytes
    {
      State(World(memory), queueNum, queuePfn, status, lastAvail)
    }

    method ReadChain(memory: GuestMemory, queue: nat, head: nat) returns (r: Result<Chain>)
      requires Valid(memory) && queue < U32 * 4096 && head < U16
      ensures r == Validate(memory.Contents(), queue, queueNum, head)
    {
      hide ReadLe, And;
      var header :- memory.ReadInt(Desc(queue, head), 8);
      var headerFlags :- memory.ReadInt(Desc(queue, head) + 12, 2);
      var next :- memory.ReadInt(Desc(queue, head) + 14, 2);
      if And(headerFlags, DESC_NEXT) == 0 {
        return Err(NoDataDescriptor);
      }
      ghost var mem := memory.Contents();
      ReadLeBound(mem, Desc(queue, head), 8);
      ReadLeBound(mem, Desc(queue, head) + 14, 2);
      var kind :- memory.ReadInt(header, 4);
      var sector :- memory.ReadInt(Add64(header, 8), 8);
      var addr :- memory.ReadInt(Desc(queue, next), 8);
      var len :- memory.ReadInt(Desc(queue, next) + 8, 4);
      var flags :- memory.ReadInt(Desc(queue, next) + 12, 2);
      var statusNext :- memory.ReadInt(Desc(queue, next) + 14, 2);
      if And(flags, DESC_NEXT) == 0 || statusNext >= queueNum {
        return Err(InvalidStatusDescriptor);
      }
      var statusAddr :- memory.ReadInt(Desc(queue, statusNext), 8);
      if statusAddr == 0 {
        return Err(NullStatusAddress);
      }
      if kind == 0 && And(flags, DESC_WRITE) == 0 {
        return Err(ReadBufferNotWritable);
      }
      if kind == 1 && And(flags, DESC_WRITE) != 0 {
        return Err(WriteBufferNotReadable);
      }
      return Ok(Chain(header, next, kind, sector, addr, len, flags, statusNext, statusAddr));
    }

    method TransferData(memory: GuestMemory, c: Chain) returns (r: Result<byte>)
      requires Valid(memory) && c.addr < U64 && c.len < U32
      modifies memory.bytes, disk
      ensures (World(memory), r) == Transfer(old(World(memory)), c)
    {
      var payload := new byte[c.len];
      if c.kind == 0 {
        var count :- disk.Read(Mul64(c.sector, SECTOR_SIZE), payload);
        var _ :- memory.WriteGuest(c.addr, payload[..count]);
        return Ok(0);
      } else if c.kind == 1 {
        var _ :- memory.ReadGuest(c.addr, payload);
        assert payload[..] == old(memory.Contents())[c.addr..c.addr + c.len];
        var _ :- disk.Write(Mul64(c.sector, SECTOR_SIZE), payload[..]);
        return Ok(0);
      } else {
        return Ok(1);
      }
    }

    method PublishUsed(memory: GuestMemory, queue: nat, head: nat, len: nat) returns (r: Result<Unit>)
      requires Valid(memory) && queue < U32 * 4096 && 0 < queueNum
      modifies memory.bytes
      ensures (memory.Contents(), r) == Publish(old(memory.Contents()), queue, queueNum, head, len)
    {
      hide AlignUp, ToLe, Le;
      UsedBaseBounds(queue, queueNum);
      var used := UsedBase(queue, queueNum);
      var index :- memory.ReadInt(used + 2, 2);
      var slot := index % queueNum;
      var _ :- memory.WriteGuest(used + 4 + slot * 8, ToLe(head, 4));
      var _ :- memory.WriteGuest(used + 8 + slot * 8, ToLe(len, 4));
      r := memory.WriteGuest(used + 2, ToLe((index + 1) % U16, 2));
    }

    method ProcessRequest(memory: GuestMemory, queue: nat, head: nat) returns (r: Result<Unit>)
      requires Valid(memory) && queue < U32 * 4096 && head < U16 && 0 < queueNum
      modifies memory.bytes, disk
      ensures (World(memory), r) == VirtioSpec.ProcessRequest(old(World(memory)), queue, queueNum, head)
    {
      hide Validate, Transfer, Publish;
      var c :- ReadChain(memory, queue, head);
      ChainBounds(memory.Contents(), queue, queueNum, head);
      var code :- TransferData(memory, c);
      var _ :- memory.WriteGuest(c.status, [code]);
      r := PublishUsed(memory, queue, head, c.len);
    }

    method ProcessQueue(memory: GuestMemory) returns (r: Result<Unit>)
      requires Valid(memory)
      modifies this`lastAvail, memory.bytes, disk
      ensures Valid(memory)
      ensures (Snapshot(memory), r) == VirtioSpec.ProcessQueue(old(Snapshot(memory)))
    {
      hide VirtioSpec.ProcessRequest, Drain, ReadLe, Step, Remaining;
      var queue := Queue(queuePfn);
      var availIdx :- memory.ReadInt(AvailBase(queue) + 2, 2);
      ReadLeBound(memory.Contents(), AvailBase(queue) + 2, 2);
      while lastAvail != availIdx
        invariant Valid(memory)
        invariant Drain(Snapshot(memory), availIdx) == Drain(old(Snapshot(memory)), availIdx)
        decreases Remaining(lastAvail, availIdx)
      {
        ghost var s := Snapshot(memory);
        TurnFails(s);
        DrainTurn(s, availIdx);
        if queueNum == 0 {
          return Err(Panicked);
        }
        var slot := lastAvail % queueNum;
        var head :- memory.ReadInt(AvailBase(queue) + 4 + slot * 2, 2);
        ReadLeBound(memory.Contents(), AvailEntry(queue, queueNum, lastAvail), 2);
        TurnIs(s, head);
        var _ :- ProcessRequest(memory, queue, head);
        RemainingShrinks(lastAvail, availIdx);
        lastAvail := (lastAvail + 1) % U16;
      }
      DrainDone(Snapshot(memory));
      return Ok(Unit);
    }

    method Write(memory: GuestMemory, offset: nat, value: nat) returns (r: Result<Unit>)
      requires Valid(memory)
      modifies this, memory.bytes, disk
      ensures Valid(memory)
      ensures (Snapshot(memory), r) == WriteRegister(old(Snapshot(memory)), offset, value)
    {
      hide VirtioSpec.ProcessQueue;
      match offset {
      case 0x38 => queueNum := if value % U16 < MAX_QUEUE then value % U16 else MAX_QUEUE;
      case 0x40 => queuePfn := value % U32;
      case 0x50 =>
        if value == 0 && queuePfn != 0 {
          var done := ProcessQueue(memory);
          if done == Err(Panicked) {
            return done;
          }
        }
      case 0x60 => status := value % U32;
      case _ =>
      }
      return Ok(Unit);
    }
  }
}
