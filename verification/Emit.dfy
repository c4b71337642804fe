/** Writing delta commands into the tube. */
module Emit {
  import opened Command
  import opened Job
  import opened NetInt
  import opened Protocol
  import Util

  method EmitDeltaHeader(job: Job)
    requires job.Flows() && job.Idle()
    modifies job`writeLen, job`promised, job.writeBuf
    ensures job.Flows() && job.writeLen == 4 && job.promised == old(job.promised) + Magic
  {
    job.SquirtNetint(DELTA_MAGIC, 4);
  }

  method EmitLiteralCmd(job: Job, len: nat)
    requires job.Flows() && job.Idle() && 0 < len < INT_LIMIT
    modifies job`writeLen, job`promised, job`stats, job.writeBuf
    ensures job.Flows() && job.writeLen == |LiteralHead(len)| > 0
    ensures job.promised == old(job.promised) + LiteralHead(len)
    ensures job.stats == old(job.stats).AddLiteral(len, |LiteralHead(len)|)
  {
    hide Job.Flows, BigEndian;
    var paramLen := if len <= 64 then 0 else IntLen(len);
    var cmd: int;
    if paramLen == 0 {
      cmd := len;
    } else if paramLen == 1 {
      cmd := OP_LITERAL_N1;
    } else if paramLen == 2 {
      cmd := OP_LITERAL_N2;
    } else {
      cmd := OP_LITERAL_N4;
    }
    ghost var before := job.promised;
    job.SquirtByte(cmd);
    if paramLen > 0 {
      job.SquirtNetint(len, paramLen);
    }
    assert job.promised == before + ([cmd] + BigEndian(len, paramLen));
    job.stats := job.stats.(litCmds := job.stats.litCmds + 1,
                            litBytes := job.stats.litBytes + len,
                            litCmdbytes := job.stats.litCmdbytes + 1 + paramLen);
  }

  method EmitCopyCmd(job: Job, where: nat, len: nat)
    requires job.Flows() && job.Idle() && where < Util.LONG_LIMIT && 0 < len < Util.LONG_LIMIT
    modifies job`writeLen, job`promised, job`stats, job.writeBuf
    ensures job.Flows() && job.writeLen == |CopyHead(where, len)| > 0
    ensures job.promised == old(job.promised) + CopyHead(where, len)
    ensures job.stats == old(job.stats).AddCopy(len, |CopyHead(where, len)|)
  {
    hide Job.Flows, BigEndian;
    var whereBytes := IntLen(where);
    var lenBytes := IntLen(len);
    var cmd: int;
    if whereBytes == 8 {
      cmd := OP_COPY_N8_N1;
    } else if whereBytes == 4 {
      cmd := OP_COPY_N4_N1;
    } else if whereBytes == 2 {
      cmd := OP_COPY_N2_N1;
    } else {
      cmd := OP_COPY_N1_N1;
    }
    if lenBytes == 1 {
    } else if lenBytes == 2 {
      cmd := cmd + 1;
    } else if lenBytes == 4 {
      cmd := cmd + 2;
    } else {
      cmd := cmd + 3;
    }
    ghost var before := job.promised;
    job.SquirtByte(cmd);
    job.SquirtNetint(where, whereBytes);
    job.SquirtNetint(len, lenBytes);
    assert job.promised == before + ([cmd] + BigEndian(where, whereBytes) + BigEndian(len, lenBytes));
    job.stats := job.stats.(copyCmds := job.stats.copyCmds + 1,
                            copyBytes := job.stats.copyBytes + len,
                            copyCmdbytes := job.stats.copyCmdbytes + 1 + whereBytes + lenBytes);
  }

  method EmitEndCmd(job: Job)
    requires job.Flows() && job.Idle()
    modifies job`writeLen, job`promised, job.writeBuf
    ensures job.Flows() && job.writeLen == 1 && job.promised == old(job.promised) + [OP_END]
  {
    job.SquirtByte(OP_END);
  }
}
