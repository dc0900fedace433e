/** ServerInfo and CommandLineOptions as bytes: every field under its literal key, in the order of the output. */
module ServerInfoBytes {
  import opened GoTypes
  import opened Wire
  import opened Messages
  import opened ServerInfos
  import opened ServerInfoLaws
  import opened ServerInfoMarshal
  import opened FieldBytes

  lemma ServerInfoInBytes(m: ServerInfo) returns (chunks: seq<Bytes>)
    ensures EncodeServerInfo(Some(m)) == Join(chunks) + m.unknownFields
    ensures
      var k := m.fields;
      chunks == [
        StringBytes([0xa], k.version),
        NumberBytes([0x10], Uint64Of(k.state)),
        MessageBytes([0x1a], k.uptimeCurrentEpoch),
        MessageBytes([0x22], k.uptimeAllEpochs),
        StringBytes([0x2a], k.hotRestartVersion),
        MessageBytes([0x32], MapOption(EncodeOptions, k.commandLineOptions))]
    ensures NumbersSorted(Flatten(ServerInfoLayout(m.fields)))
  {
    hide Key, MessageBytes, NumberBytes, StringBytes, OptionalField, StringField, VarintField, EncodeRecords,
      EncodeFields, Flatten, Numbered, Join, EncodeOptions, MapOption, Uint64Of;
    var k := m.fields;
    OneByteKeys();
    StringEmits(1, [0xa], k.version);
    NumberEmits(2, [0x10], Uint64Of(k.state));
    MessageEmits(3, [0x1a], k.uptimeCurrentEpoch);
    MessageEmits(4, [0x22], k.uptimeAllEpochs);
    StringEmits(5, [0x2a], k.hotRestartVersion);
    MessageEmits(6, [0x32], MapOption(EncodeOptions, k.commandLineOptions));
    var fs := ServerInfoLayout(k);
    forall i | 0 <= i < |fs| ensures Numbered(fs[i], i + 1) {
      assert i in {0, 1, 2, 3, 4, 5};
    }
    chunks := Chunks(fs, m.unknownFields);
  }

  lemma OptionsFirst(k: OptionsFields)
    ensures |OptionsLayout(k)| == 27
    ensures EncodeRecords(OptionsLayout(k)[0]) == NumberBytes([0x8], k.baseId)
    ensures EncodeRecords(OptionsLayout(k)[1]) == NumberBytes([0x10], k.concurrency)
    ensures EncodeRecords(OptionsLayout(k)[2]) == StringBytes([0x1a], k.configPath)
    ensures EncodeRecords(OptionsLayout(k)[3]) == StringBytes([0x22], k.configYaml)
    ensures EncodeRecords(OptionsLayout(k)[4]) == BoolBytes([0x28], k.allowUnknownStaticFields)
    ensures EncodeRecords(OptionsLayout(k)[5]) == StringBytes([0x32], k.adminAddressPath)
    ensures EncodeRecords(OptionsLayout(k)[6]) == NumberBytes([0x38], Uint64Of(k.localAddressIpVersion))
    ensures EncodeRecords(OptionsLayout(k)[7]) == StringBytes([0x42], k.logLevel)
    ensures EncodeRecords(OptionsLayout(k)[8]) == StringBytes([0x4a], k.componentLogLevel)
    ensures EncodeRecords(OptionsLayout(k)[9]) == StringBytes([0x52], k.logFormat)
    ensures EncodeRecords(OptionsLayout(k)[10]) == StringBytes([0x5a], k.logPath)
    ensures EncodeRecords(OptionsLayout(k)[11]) == StringBytes([0x6a], k.serviceCluster)
    ensures EncodeRecords(OptionsLayout(k)[12]) == StringBytes([0x72], k.serviceNode)
    ensures EncodeRecords(OptionsLayout(k)[13]) == StringBytes([0x7a], k.serviceZone)
  {
    hide Key, StringBytes, NumberBytes, BoolBytes, MessageBytes, ElementBytes, StringField, VarintField, BoolField,
      OptionalField, RepeatedField, EncodeRecords, OptionsLayout, Numbered, Uint64Of;
    OptionsKeys();
    OptionsLayoutAt(k);
    NumberEmits(1, [0x8], k.baseId);
    NumberEmits(2, [0x10], k.concurrency);
    StringEmits(3, [0x1a], k.configPath);
    StringEmits(4, [0x22], k.configYaml);
    BoolEmits(5, [0x28], k.allowUnknownStaticFields);
    StringEmits(6, [0x32], k.adminAddressPath);
    NumberEmits(7, [0x38], Uint64Of(k.localAddressIpVersion));
    StringEmits(8, [0x42], k.logLevel);
    StringEmits(9, [0x4a], k.componentLogLevel);
    StringEmits(10, [0x52], k.logFormat);
    StringEmits(11, [0x5a], k.logPath);
    StringEmits(13, [0x6a], k.serviceCluster);
    StringEmits(14, [0x72], k.serviceNode);
    StringEmits(15, [0x7a], k.serviceZone);
  }

  lemma OptionsRest(k: OptionsFields)
    ensures |OptionsLayout(k)| == 27
    ensures EncodeRecords(OptionsLayout(k)[14]) == MessageBytes([0x82, 0x1], k.fileFlushInterval)
    ensures EncodeRecords(OptionsLayout(k)[15]) == MessageBytes([0x8a, 0x1], k.drainTime)
    ensures EncodeRecords(OptionsLayout(k)[16]) == MessageBytes([0x92, 0x1], k.parentShutdownTime)
    ensures EncodeRecords(OptionsLayout(k)[17]) == NumberBytes([0x98, 0x1], Uint64Of(k.mode))
    ensures EncodeRecords(OptionsLayout(k)[18]) == NumberBytes([0xa0, 0x1], k.maxStats)
    ensures EncodeRecords(OptionsLayout(k)[19]) == NumberBytes([0xa8, 0x1], k.maxObjNameLen)
    ensures EncodeRecords(OptionsLayout(k)[20]) == BoolBytes([0xb0, 0x1], k.disableHotRestart)
    ensures EncodeRecords(OptionsLayout(k)[21]) == BoolBytes([0xb8, 0x1], k.enableMutexTracing)
    ensures EncodeRecords(OptionsLayout(k)[22]) == NumberBytes([0xc0, 0x1], k.restartEpoch)
    ensures EncodeRecords(OptionsLayout(k)[23]) == BoolBytes([0xc8, 0x1], k.cpusetThreads)
    ensures EncodeRecords(OptionsLayout(k)[24]) == BoolBytes([0xd0, 0x1], k.rejectUnknownDynamicFields)
    ensures EncodeRecords(OptionsLayout(k)[25]) == BoolBytes([0xd8, 0x1], k.logFormatEscaped)
    ensures EncodeRecords(OptionsLayout(k)[26]) == ElementBytes([0xe2, 0x1], k.disabledExtensions)
  {
    hide Key, StringBytes, NumberBytes, BoolBytes, MessageBytes, ElementBytes, StringField, VarintField, BoolField,
      OptionalField, RepeatedField, EncodeRecords, OptionsLayout, Numbered, Uint64Of;
    OptionsKeys();
    OptionsLayoutAt(k);
    MessageEmits(16, [0x82, 0x1], k.fileFlushInterval);
    MessageEmits(17, [0x8a, 0x1], k.drainTime);
    MessageEmits(18, [0x92, 0x1], k.parentShutdownTime);
    NumberEmits(19, [0x98, 0x1], Uint64Of(k.mode));
    NumberEmits(20, [0xa0, 0x1], k.maxStats);
    NumberEmits(21, [0xa8, 0x1], k.maxObjNameLen);
    BoolEmits(22, [0xb0, 0x1], k.disableHotRestart);
    BoolEmits(23, [0xb8, 0x1], k.enableMutexTracing);
    NumberEmits(24, [0xc0, 0x1], k.restartEpoch);
    BoolEmits(25, [0xc8, 0x1], k.cpusetThreads);
    BoolEmits(26, [0xd0, 0x1], k.rejectUnknownDynamicFields);
    BoolEmits(27, [0xd8, 0x1], k.logFormatEscaped);
    ElementsEmit(28, [0xe2, 0x1], k.disabledExtensions);
  }

  /** What MarshalOptions writes, field by field; that its numbers never decrease is OptionsNumbersSorted. */
  lemma OptionsInBytes(m: CommandLineOptions) returns (chunks: seq<Bytes>)
    ensures EncodeOptions(m) == Join(chunks) + m.unknownFields
    ensures
      var k := m.fields;
      chunks == [
        NumberBytes([0x8], k.baseId),
        NumberBytes([0x10], k.concurrency),
        StringBytes([0x1a], k.configPath),
        StringBytes([0x22], k.configYaml),
        BoolBytes([0x28], k.allowUnknownStaticFields),
        StringBytes([0x32], k.adminAddressPath),
        NumberBytes([0x38], Uint64Of(k.localAddressIpVersion)),
        StringBytes([0x42], k.logLevel),
        StringBytes([0x4a], k.componentLogLevel),
        StringBytes([0x52], k.logFormat),
        StringBytes([0x5a], k.logPath),
        StringBytes([0x6a], k.serviceCluster),
        StringBytes([0x72], k.serviceNode),
        StringBytes([0x7a], k.serviceZone),
        MessageBytes([0x82, 0x1], k.fileFlushInterval),
        MessageBytes([0x8a, 0x1], k.drainTime),
        MessageBytes([0x92, 0x1], k.parentShutdownTime),
        NumberBytes([0x98, 0x1], Uint64Of(k.mode)),
        NumberBytes([0xa0, 0x1], k.maxStats),
        NumberBytes([0xa8, 0x1], k.maxObjNameLen),
        BoolBytes([0xb0, 0x1], k.disableHotRestart),
        BoolBytes([0xb8, 0x1], k.enableMutexTracing),
        NumberBytes([0xc0, 0x1], k.restartEpoch),
        BoolBytes([0xc8, 0x1], k.cpusetThreads),
        BoolBytes([0xd0, 0x1], k.rejectUnknownDynamicFields),
        BoolBytes([0xd8, 0x1], k.logFormatEscaped),
        ElementBytes([0xe2, 0x1], k.disabledExtensions)]
  {
    hide StringBytes, NumberBytes, BoolBytes, MessageBytes, ElementBytes, EncodeRecords, EncodeFields, OptionsLayout,
      Uint64Of, Join;
    OptionsFirst(m.fields);
    OptionsRest(m.fields);
    var fs := OptionsLayout(m.fields);
    chunks := seq(27, i requires 0 <= i < 27 => EncodeRecords(fs[i]));
    JoinFields(fs, chunks, m.unknownFields);
  }

  /** A single flag, under a key of one byte and under one of two. */
  lemma FlagExamples()
    ensures EncodeOptions(Msg(NO_OPTIONS.(allowUnknownStaticFields := true), [])) == [0x28, 1]
    ensures EncodeOptions(Msg(NO_OPTIONS.(logFormatEscaped := true), [])) == [0xd8, 1, 1]
  {
    var one := OptionsInBytes(Msg(NO_OPTIONS.(allowUnknownStaticFields := true), []));
    var two := OptionsInBytes(Msg(NO_OPTIONS.(logFormatEscaped := true), []));
    hide Join, EncodeOptions;
    JoinOnly(one, 4);
    JoinOnly(two, 25);
  }
}
