/** Storing a collected line and telling the indexes (writeLogLine in
    collector/collector.go). */
module LineSink {
  import opened Bytes
  import opened Writer
  import opened IndexManager

  /** The part of the collector that stored lines pass through. */
  class Sink {
    const indexes: Manager
    var droppedLines: nat

    constructor (indexes: Manager)
      ensures this.indexes == indexes && droppedLines == 0
    {
      this.indexes, droppedLines := indexes, 0;
    }

    /** writeLogLine: a line that is stored reaches every index with the place
        it can be read back from; a dropped line is counted, and no index
        hears of it. */
    method WriteLogLine(writer: SegmentWriter, now: Time, stamp: Time, line: Text, io: Io)
      returns (ghost outcome: Outcome)
      requires writer.Valid() && ZERO_TIME <= now && LastNow(writer.history) <= now
      requires writer.store == indexes.logs
      modifies writer, writer.store, indexes`dirs, this`droppedLines
      ensures writer.Valid() && writer.history == After(old(writer.history), Call(now, stamp, line, outcome))
      ensures droppedLines == old(droppedLines) + if outcome.Accepted? then 0 else 1
      ensures outcome.Accepted? ==
              (old(writer.unhealthyUntil) <= now
               && Succeeds(old(writer.f), old(writer.segmentDate), writer.formatDate(DayOf(stamp)), io))
      ensures outcome.Accepted? ==>
                && ReadsBack(writer.store.files, outcome.loc, line)
                && outcome.loc.path == writer.PathFor(writer.formatDate(DayOf(stamp)))
                && forall k :: indexes.DirOf(k)
                               == if k in indexes.keys
                                  then AddRef(indexes.lib, old(indexes.DirOf(k)),
                                              LineRef(indexes.lib, k, outcome.loc.path, outcome.loc.offset,
                                                      outcome.loc.length, line))
                                  else old(indexes.DirOf(k))
      ensures !outcome.Accepted? ==> forall k :: indexes.DirOf(k) == old(indexes.DirOf(k))
    {
      var segment, offset, length, ok;
      segment, offset, length, ok, outcome := writer.WriteWithLocation(now, stamp, line, io);
      if !ok {
        droppedLines := droppedLines + 1;
        return;
      }
      indexes.ObserveLineAt(writer.PathFor(segment), offset, length, line);
    }
  }
}
