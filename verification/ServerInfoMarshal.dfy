/** The marshallers of ServerInfo and CommandLineOptions. */
module ServerInfoMarshal {
  import opened GoTypes
  import opened Varint
  import opened Wire
  import opened Messages
  import opened Buffer
  import opened ServerInfos

  /** The key literals of the source are the varints of 8 * number + wire type. */
  lemma OptionsKeys()
    ensures Key(1, VARINT) == [0x8]
    ensures Key(2, VARINT) == [0x10]
    ensures Key(3, LEN) == [0x1a]
    ensures Key(4, LEN) == [0x22]
    ensures Key(5, VARINT) == [0x28]
    ensures Key(6, LEN) == [0x32]
    ensures Key(7, VARINT) == [0x38]
    ensures Key(8, LEN) == [0x42]
    ensures Key(9, LEN) == [0x4a]
    ensures Key(10, LEN) == [0x52]
    ensures Key(11, LEN) == [0x5a]
    ensures Key(13, LEN) == [0x6a]
    ensures Key(14, LEN) == [0x72]
    ensures Key(15, LEN) == [0x7a]
    ensures Key(16, LEN) == [0x82, 0x1]
    ensures Key(17, LEN) == [0x8a, 0x1]
    ensures Key(18, LEN) == [0x92, 0x1]
    ensures Key(19, VARINT) == [0x98, 0x1]
    ensures Key(20, VARINT) == [0xa0, 0x1]
    ensures Key(21, VARINT) == [0xa8, 0x1]
    ensures Key(22, VARINT) == [0xb0, 0x1]
    ensures Key(23, VARINT) == [0xb8, 0x1]
    ensures Key(24, VARINT) == [0xc0, 0x1]
    ensures Key(25, VARINT) == [0xc8, 0x1]
    ensures Key(26, VARINT) == [0xd0, 0x1]
    ensures Key(27, VARINT) == [0xd8, 0x1]
    ensures Key(28, LEN) == [0xe2, 0x1]
  {
  }

  /** Fields 28 down to 16. */
  method MarshalTwoByteKeys(k: OptionsFields, dAtA: array<byte>, end: nat, ghost job: Job) returns (i: nat)
    requires job.Valid() && job.fields == OptionsLayout(k) && job.Done(dAtA[..], end, 27)
    modifies dAtA
    ensures job.Done(dAtA[..], i, 14)
  {
    hide EncodeRecord, EncodeFields, Splice, Job.From, Job.Valid, Job.Holds, Job.Done, OptionsLayout, Key,
      StringField, VarintField, BoolField, OptionalField, RepeatedField, Uint64Of, Inserted;
    OptionsLayoutAt(k);
    OptionsKeys();
    i := end;
    i := PutStrings(dAtA, i, [0xe2, 0x1], k.disabledExtensions, 28, 26, job);
    i := PutBool(dAtA, i, [0xd8, 0x1], k.logFormatEscaped, 27, 25, job);
    i := PutBool(dAtA, i, [0xd0, 0x1], k.rejectUnknownDynamicFields, 26, 24, job);
    i := PutBool(dAtA, i, [0xc8, 0x1], k.cpusetThreads, 25, 23, job);
    i := PutVarint(dAtA, i, [0xc0, 0x1], k.restartEpoch, 24, 22, job);
    i := PutBool(dAtA, i, [0xb8, 0x1], k.enableMutexTracing, 23, 21, job);
    i := PutBool(dAtA, i, [0xb0, 0x1], k.disableHotRestart, 22, 20, job);
    i := PutVarint(dAtA, i, [0xa8, 0x1], k.maxObjNameLen, 21, 19, job);
    i := PutVarint(dAtA, i, [0xa0, 0x1], k.maxStats, 20, 18, job);
    i := PutVarint(dAtA, i, [0x98, 0x1], Uint64Of(k.mode), 19, 17, job);
    i := PutOpaque(dAtA, i, [0x92, 0x1], k.parentShutdownTime, 18, 16, job);
    i := PutOpaque(dAtA, i, [0x8a, 0x1], k.drainTime, 17, 15, job);
    i := PutOpaque(dAtA, i, [0x82, 0x1], k.fileFlushInterval, 16, 14, job);
  }

  /** Fields 15 down to 1. */
  method MarshalOneByteKeys(k: OptionsFields, dAtA: array<byte>, end: nat, ghost job: Job) returns (i: nat)
    requires job.Valid() && job.fields == OptionsLayout(k) && job.Done(dAtA[..], end, 14)
    modifies dAtA
    ensures job.Done(dAtA[..], i, 0)
  {
    hide EncodeRecord, EncodeFields, Splice, Job.From, Job.Valid, Job.Holds, Job.Done, OptionsLayout, Key,
      StringField, VarintField, BoolField, OptionalField, RepeatedField, Uint64Of, Inserted;
    OptionsLayoutAt(k);
    OptionsKeys();
    i := end;
    i := PutString(dAtA, i, [0x7a], k.serviceZone, 15, 13, job);
    i := PutString(dAtA, i, [0x72], k.serviceNode, 14, 12, job);
    i := PutString(dAtA, i, [0x6a], k.serviceCluster, 13, 11, job);
    i := PutString(dAtA, i, [0x5a], k.logPath, 11, 10, job);
    i := PutString(dAtA, i, [0x52], k.logFormat, 10, 9, job);
    i := PutString(dAtA, i, [0x4a], k.componentLogLevel, 9, 8, job);
    i := PutString(dAtA, i, [0x42], k.logLevel, 8, 7, job);
    i := PutVarint(dAtA, i, [0x38], Uint64Of(k.localAddressIpVersion), 7, 6, job);
    i := PutString(dAtA, i, [0x32], k.adminAddressPath, 6, 5, job);
    i := PutBool(dAtA, i, [0x28], k.allowUnknownStaticFields, 5, 4, job);
    i := PutString(dAtA, i, [0x22], k.configYaml, 4, 3, job);
    i := PutString(dAtA, i, [0x1a], k.configPath, 3, 2, job);
    i := PutVarint(dAtA, i, [0x10], k.concurrency, 2, 1, job);
    i := PutVarint(dAtA, i, [0x8], k.baseId, 1, 0, job);
  }

  method MarshalOptions(m: Option<CommandLineOptions>, dAtA: array<byte>, end: nat) returns (n: nat)
    requires |EncodeOptionsOrNil(m)| <= end <= dAtA.Length <= MAX_INT
    modifies dAtA
    ensures n == |EncodeOptionsOrNil(m)|
    ensures dAtA[..] == Splice(old(dAtA[..]), end, EncodeOptionsOrNil(m))
  {
    hide EncodeRecord, EncodeRecords, EncodeFields, Splice, Job.From, Job.Valid, OptionsLayout;
    if m.None? {
      SpliceNothing(dAtA[..], end);
      return 0;
    }
    var k := m.value.fields;
    ghost var job := Job(dAtA[..], end, OptionsLayout(k), m.value.unknownFields);
    OptionsLayoutAt(k);
    JobFits(job);
    var i := PutUnknown(dAtA, end, m.value.unknownFields, job);
    i := MarshalTwoByteKeys(k, dAtA, i, job);
    i := MarshalOneByteKeys(k, dAtA, i, job);
    Finish(job, dAtA[..], i);
    n := end - i;
  }

  /** Fields 1 to 15. */
  method SizeOneByteKeys(k: OptionsFields, start: int, ghost job: Job) returns (n: int)
    requires job.fields == OptionsLayout(k) && Sized(job, start, 0)
    ensures Sized(job, n, 14)
  {
    hide EncodeRecord, EncodeFields, Sized, OptionsLayout, Key,
      StringField, VarintField, BoolField, OptionalField, RepeatedField, Uint64Of;
    OptionsLayoutAt(k);
    OptionsKeys();
    n := start;
    n := AddVarint(n, 1, k.baseId, 1, 0, job);
    n := AddVarint(n, 1, k.concurrency, 2, 1, job);
    n := AddString(n, 1, k.configPath, 3, 2, job);
    n := AddString(n, 1, k.configYaml, 4, 3, job);
    n := AddBool(n, 2, k.allowUnknownStaticFields, 5, 4, job);
    n := AddString(n, 1, k.adminAddressPath, 6, 5, job);
    n := AddVarint(n, 1, Uint64Of(k.localAddressIpVersion), 7, 6, job);
    n := AddString(n, 1, k.logLevel, 8, 7, job);
    n := AddString(n, 1, k.componentLogLevel, 9, 8, job);
    n := AddString(n, 1, k.logFormat, 10, 9, job);
    n := AddString(n, 1, k.logPath, 11, 10, job);
    n := AddString(n, 1, k.serviceCluster, 13, 11, job);
    n := AddString(n, 1, k.serviceNode, 14, 12, job);
    n := AddString(n, 1, k.serviceZone, 15, 13, job);
  }

  /** Fields 16 to 28. */
  method SizeTwoByteKeys(k: OptionsFields, start: int, ghost job: Job) returns (n: int)
    requires job.fields == OptionsLayout(k) && Sized(job, start, 14)
    ensures Sized(job, n, 27)
  {
    hide EncodeRecord, EncodeFields, Sized, OptionsLayout, Key,
      StringField, VarintField, BoolField, OptionalField, RepeatedField, Uint64Of;
    OptionsLayoutAt(k);
    OptionsKeys();
    n := start;
    n := AddOpaque(n, 2, k.fileFlushInterval, 16, 14, job);
    n := AddOpaque(n, 2, k.drainTime, 17, 15, job);
    n := AddOpaque(n, 2, k.parentShutdownTime, 18, 16, job);
    n := AddVarint(n, 2, Uint64Of(k.mode), 19, 17, job);
    n := AddVarint(n, 2, k.maxStats, 20, 18, job);
    n := AddVarint(n, 2, k.maxObjNameLen, 21, 19, job);
    n := AddBool(n, 3, k.disableHotRestart, 22, 20, job);
    n := AddBool(n, 3, k.enableMutexTracing, 23, 21, job);
    n := AddVarint(n, 2, k.restartEpoch, 24, 22, job);
    n := AddBool(n, 3, k.cpusetThreads, 25, 23, job);
    n := AddBool(n, 3, k.rejectUnknownDynamicFields, 26, 24, job);
    n := AddBool(n, 3, k.logFormatEscaped, 27, 25, job);
    n := AddStrings(n, 2, k.disabledExtensions, 28, 26, job);
  }

  method SizeOptions(m: Option<CommandLineOptions>) returns (n: int)
    requires |EncodeOptionsOrNil(m)| <= MAX_INT
    ensures n == |EncodeOptionsOrNil(m)|
  {
    hide EncodeFields, OptionsLayout;
    n := 0;
    if m.None? {
      return;
    }
    var k := m.value.fields;
    ghost var job := Job([], 0, OptionsLayout(k), m.value.unknownFields);
    OptionsLayoutAt(k);
    SizedStart(job);
    n := SizeOneByteKeys(k, n, job);
    n := SizeTwoByteKeys(k, n, job);
    SizedEnd(job, n);
    n := n + |m.value.unknownFields|;
  }

  method MarshalServerInfo(m: Option<ServerInfo>, dAtA: array<byte>, end: nat) returns (n: nat)
    requires |EncodeServerInfo(m)| <= end <= dAtA.Length <= MAX_INT
    modifies dAtA
    ensures n == |EncodeServerInfo(m)|
    ensures dAtA[..] == Splice(old(dAtA[..]), end, EncodeServerInfo(m))
  {
    hide EncodeRecord, EncodeRecords, EncodeFields, Splice, Job.From, Job.Valid, Inserted;
    if m.None? {
      SpliceNothing(dAtA[..], end);
      return 0;
    }
    var k := m.value.fields;
    ghost var job := Job(dAtA[..], end, ServerInfoLayout(k), m.value.unknownFields);
    JobFits(job);
    var i := PutUnknown(dAtA, end, m.value.unknownFields, job);
    if k.commandLineOptions.Some? {
      ghost var optionsBytes := EncodeOptions(k.commandLineOptions.value);
      RoomForMessage(job, 5, 6, optionsBytes, dAtA[..], i);
      var size := MarshalOptions(k.commandLineOptions, dAtA, i);
      i := PutPrefix(dAtA, i - size, size, [0x32], 6, optionsBytes, job.From(6), job);
    } else {
      AbsentField(job, 5);
    }
    i := PutString(dAtA, i, [0x2a], k.hotRestartVersion, 5, 4, job);
    i := PutOpaque(dAtA, i, [0x22], k.uptimeAllEpochs, 4, 3, job);
    i := PutOpaque(dAtA, i, [0x1a], k.uptimeCurrentEpoch, 3, 2, job);
    i := PutVarint(dAtA, i, [0x10], Uint64Of(k.state), 2, 1, job);
    i := PutString(dAtA, i, [0xa], k.version, 1, 0, job);
    Finish(job, dAtA[..], i);
    n := end - i;
  }

  method SizeServerInfo(m: Option<ServerInfo>) returns (n: int)
    requires |EncodeServerInfo(m)| <= MAX_INT
    ensures n == |EncodeServerInfo(m)|
  {
    hide EncodeRecord, EncodeRecords, EncodeFields, SizeOfVarint;
    n := 0;
    if m.None? {
      return;
    }
    var k := m.value.fields;
    ghost var job := Job([], 0, ServerInfoLayout(k), m.value.unknownFields);
    SizedStart(job);
    n := AddString(n, 1, k.version, 1, 0, job);
    n := AddVarint(n, 1, Uint64Of(k.state), 2, 1, job);
    n := AddOpaque(n, 1, k.uptimeCurrentEpoch, 3, 2, job);
    n := AddOpaque(n, 1, k.uptimeAllEpochs, 4, 3, job);
    n := AddString(n, 1, k.hotRestartVersion, 5, 4, job);
    if k.commandLineOptions.Some? {
      ghost var optionsBytes := EncodeOptions(k.commandLineOptions.value);
      FieldFits(job.fields, job.unknownFields, 5);
      OptionalPayloadFits(6, optionsBytes);
      var l := SizeOptions(k.commandLineOptions);
      n := AddMessage(n, 1, l, 6, optionsBytes, 5, job);
    } else {
      AbsentField(job, 5);
    }
    SizedEnd(job, n);
    n := n + |m.value.unknownFields|;
  }

  /** MarshalVTStrict: a buffer of exactly SizeVT bytes, of which the first n are returned. */
  method MarshalVTStrict(m: Option<ServerInfo>) returns (bs: seq<byte>)
    requires |EncodeServerInfo(m)| <= MAX_INT
    ensures bs == EncodeServerInfo(m)
  {
    if m.None? {
      return [];
    }
    hide EncodeServerInfo;
    var size := SizeServerInfo(m);
    var dAtA := new byte[size](_ => 0);
    var n := MarshalServerInfo(m, dAtA, size);
    return dAtA[..n];
  }
}
