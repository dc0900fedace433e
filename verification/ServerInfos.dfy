/**
 * ServerInfo and CommandLineOptions: 27 fields numbered 1 to 28 (12 is unused), with keys of one
 * byte up to number 15 and of two bytes from 16 on.
 */
module ServerInfos {
  import opened GoTypes
  import opened Wire
  import opened Messages

  type Duration = seq<byte>  // opaque: the bytes its own marshaller writes

  datatype OptionsFields = OptionsFields(
    baseId: uint64,
    concurrency: uint32,
    configPath: seq<byte>,
    configYaml: seq<byte>,
    allowUnknownStaticFields: bool,
    adminAddressPath: seq<byte>,
    localAddressIpVersion: int32,
    logLevel: seq<byte>,
    componentLogLevel: seq<byte>,
    logFormat: seq<byte>,
    logPath: seq<byte>,
    serviceCluster: seq<byte>,
    serviceNode: seq<byte>,
    serviceZone: seq<byte>,
    fileFlushInterval: Option<Duration>,
    drainTime: Option<Duration>,
    parentShutdownTime: Option<Duration>,
    mode: int32,
    maxStats: uint64,
    maxObjNameLen: uint64,
    disableHotRestart: bool,
    enableMutexTracing: bool,
    restartEpoch: uint32,
    cpusetThreads: bool,
    rejectUnknownDynamicFields: bool,
    logFormatEscaped: bool,
    disabledExtensions: seq<seq<byte>>)
  type CommandLineOptions = Msg<OptionsFields>

  datatype ServerInfoFields = ServerInfoFields(
    version: seq<byte>,
    state: int32,
    uptimeCurrentEpoch: Option<Duration>,
    uptimeAllEpochs: Option<Duration>,
    hotRestartVersion: seq<byte>,
    commandLineOptions: Option<CommandLineOptions>)
  type ServerInfo = Msg<ServerInfoFields>

  const NO_OPTIONS: OptionsFields := OptionsFields(
    0, 0, [], [], false, [], 0, [], [], [], [], [], [], [], None, None, None, 0, 0, 0, false, false, 0, false, false,
      false, [])
  const NO_SERVER_INFO: ServerInfoFields := ServerInfoFields([], 0, None, None, [], None)

  function OptionsLayout(k: OptionsFields): seq<seq<Record>> {
    [ VarintField(1, k.baseId),
      VarintField(2, k.concurrency),
      StringField(3, k.configPath),
      StringField(4, k.configYaml),
      BoolField(5, k.allowUnknownStaticFields),
      StringField(6, k.adminAddressPath),
      VarintField(7, Uint64Of(k.localAddressIpVersion)),
      StringField(8, k.logLevel),
      StringField(9, k.componentLogLevel),
      StringField(10, k.logFormat),
      StringField(11, k.logPath),
      StringField(13, k.serviceCluster),
      StringField(14, k.serviceNode),
      StringField(15, k.serviceZone),
      OptionalField(16, k.fileFlushInterval),
      OptionalField(17, k.drainTime),
      OptionalField(18, k.parentShutdownTime),
      VarintField(19, Uint64Of(k.mode)),
      VarintField(20, k.maxStats),
      VarintField(21, k.maxObjNameLen),
      BoolField(22, k.disableHotRestart),
      BoolField(23, k.enableMutexTracing),
      VarintField(24, k.restartEpoch),
      BoolField(25, k.cpusetThreads),
      BoolField(26, k.rejectUnknownDynamicFields),
      BoolField(27, k.logFormatEscaped),
      RepeatedField(28, k.disabledExtensions) ]
  }

  lemma OptionsLayoutAt(k: OptionsFields)
    ensures |OptionsLayout(k)| == 27
    ensures OptionsLayout(k)[0] == VarintField(1, k.baseId)
    ensures OptionsLayout(k)[1] == VarintField(2, k.concurrency)
    ensures OptionsLayout(k)[2] == StringField(3, k.configPath)
    ensures OptionsLayout(k)[3] == StringField(4, k.configYaml)
    ensures OptionsLayout(k)[4] == BoolField(5, k.allowUnknownStaticFields)
    ensures OptionsLayout(k)[5] == StringField(6, k.adminAddressPath)
    ensures OptionsLayout(k)[6] == VarintField(7, Uint64Of(k.localAddressIpVersion))
    ensures OptionsLayout(k)[7] == StringField(8, k.logLevel)
    ensures OptionsLayout(k)[8] == StringField(9, k.componentLogLevel)
    ensures OptionsLayout(k)[9] == StringField(10, k.logFormat)
    ensures OptionsLayout(k)[10] == StringField(11, k.logPath)
    ensures OptionsLayout(k)[11] == StringField(13, k.serviceCluster)
    ensures OptionsLayout(k)[12] == StringField(14, k.serviceNode)
    ensures OptionsLayout(k)[13] == StringField(15, k.serviceZone)
    ensures OptionsLayout(k)[14] == OptionalField(16, k.fileFlushInterval)
    ensures OptionsLayout(k)[15] == OptionalField(17, k.drainTime)
    ensures OptionsLayout(k)[16] == OptionalField(18, k.parentShutdownTime)
    ensures OptionsLayout(k)[17] == VarintField(19, Uint64Of(k.mode))
    ensures OptionsLayout(k)[18] == VarintField(20, k.maxStats)
    ensures OptionsLayout(k)[19] == VarintField(21, k.maxObjNameLen)
    ensures OptionsLayout(k)[20] == BoolField(22, k.disableHotRestart)
    ensures OptionsLayout(k)[21] == BoolField(23, k.enableMutexTracing)
    ensures OptionsLayout(k)[22] == VarintField(24, k.restartEpoch)
    ensures OptionsLayout(k)[23] == BoolField(25, k.cpusetThreads)
    ensures OptionsLayout(k)[24] == BoolField(26, k.rejectUnknownDynamicFields)
    ensures OptionsLayout(k)[25] == BoolField(27, k.logFormatEscaped)
    ensures OptionsLayout(k)[26] == RepeatedField(28, k.disabledExtensions)
  {
    hide StringField, VarintField, BoolField, OptionalField, RepeatedField, Uint64Of;
  }

  function EncodeOptions(m: CommandLineOptions): seq<byte> {
    EncodeFields(OptionsLayout(m.fields), m.unknownFields)
  }

  function ServerInfoLayout(k: ServerInfoFields): seq<seq<Record>> {
    [ StringField(1, k.version),
      VarintField(2, Uint64Of(k.state)),
      OptionalField(3, k.uptimeCurrentEpoch),
      OptionalField(4, k.uptimeAllEpochs),
      StringField(5, k.hotRestartVersion),
      OptionalField(6, MapOption(EncodeOptions, k.commandLineOptions)) ]
  }

  function EncodeServerInfo(m: Option<ServerInfo>): seq<byte> {
    if m.None? then [] else EncodeFields(ServerInfoLayout(m.value.fields), m.value.unknownFields)
  }

  function EncodeOptionsOrNil(m: Option<CommandLineOptions>): seq<byte> {
    if m.None? then [] else EncodeOptions(m.value)
  }

  /** The decoder, from the numbers and types of the struct tags. */
  function OptionsStep(k: OptionsFields, r: Record): Outcome<OptionsFields> {
    match r
    case Varint(1, v) => Updated(k.(baseId := v))
    case Varint(2, v) => Updated(k.(concurrency := Uint32Of(v)))
    case Len(3, p) => Updated(k.(configPath := p))
    case Len(4, p) => Updated(k.(configYaml := p))
    case Varint(5, v) => Updated(k.(allowUnknownStaticFields := v != 0))
    case Len(6, p) => Updated(k.(adminAddressPath := p))
    case Varint(7, v) => Updated(k.(localAddressIpVersion := Int32Of(v)))
    case Len(8, p) => Updated(k.(logLevel := p))
    case Len(9, p) => Updated(k.(componentLogLevel := p))
    case Len(10, p) => Updated(k.(logFormat := p))
    case Len(11, p) => Updated(k.(logPath := p))
    case Len(13, p) => Updated(k.(serviceCluster := p))
    case Len(14, p) => Updated(k.(serviceNode := p))
    case Len(15, p) => Updated(k.(serviceZone := p))
    case Len(16, p) => Updated(k.(fileFlushInterval := MergeOpaque(k.fileFlushInterval, Some(p))))
    case Len(17, p) => Updated(k.(drainTime := MergeOpaque(k.drainTime, Some(p))))
    case Len(18, p) => Updated(k.(parentShutdownTime := MergeOpaque(k.parentShutdownTime, Some(p))))
    case Varint(19, v) => Updated(k.(mode := Int32Of(v)))
    case Varint(20, v) => Updated(k.(maxStats := v))
    case Varint(21, v) => Updated(k.(maxObjNameLen := v))
    case Varint(22, v) => Updated(k.(disableHotRestart := v != 0))
    case Varint(23, v) => Updated(k.(enableMutexTracing := v != 0))
    case Varint(24, v) => Updated(k.(restartEpoch := Uint32Of(v)))
    case Varint(25, v) => Updated(k.(cpusetThreads := v != 0))
    case Varint(26, v) => Updated(k.(rejectUnknownDynamicFields := v != 0))
    case Varint(27, v) => Updated(k.(logFormatEscaped := v != 0))
    case Len(28, p) => Updated(k.(disabledExtensions := k.disabledExtensions + [p]))
    case _ => Unrecognised
  }

  function ServerInfoStep(k: ServerInfoFields, r: Record): Outcome<ServerInfoFields> {
    match r
    case Len(1, p) => Updated(k.(version := p))
    case Varint(2, v) => Updated(k.(state := Int32Of(v)))
    case Len(3, p) => Updated(k.(uptimeCurrentEpoch := MergeOpaque(k.uptimeCurrentEpoch, Some(p))))
    case Len(4, p) => Updated(k.(uptimeAllEpochs := MergeOpaque(k.uptimeAllEpochs, Some(p))))
    case Len(5, p) => Updated(k.(hotRestartVersion := p))
    case Len(6, p) =>
      (match DecodeInto(OptionsStep, k.commandLineOptions.GetOr(Msg(NO_OPTIONS, [])), p)
       case Some(x) => Updated(k.(commandLineOptions := Some(x)))
       case None => Malformed)
    case _ => Unrecognised
  }

  function MergeOptions(a: OptionsFields, b: OptionsFields): OptionsFields {
    OptionsFields(
      LastNonDefault(0, a.baseId, b.baseId),
      LastNonDefault(0, a.concurrency, b.concurrency),
      LastNonDefault([], a.configPath, b.configPath),
      LastNonDefault([], a.configYaml, b.configYaml),
      a.allowUnknownStaticFields || b.allowUnknownStaticFields,
      LastNonDefault([], a.adminAddressPath, b.adminAddressPath),
      LastNonDefault(0, a.localAddressIpVersion, b.localAddressIpVersion),
      LastNonDefault([], a.logLevel, b.logLevel),
      LastNonDefault([], a.componentLogLevel, b.componentLogLevel),
      LastNonDefault([], a.logFormat, b.logFormat),
      LastNonDefault([], a.logPath, b.logPath),
      LastNonDefault([], a.serviceCluster, b.serviceCluster),
      LastNonDefault([], a.serviceNode, b.serviceNode),
      LastNonDefault([], a.serviceZone, b.serviceZone),
      MergeOpaque(a.fileFlushInterval, b.fileFlushInterval),
      MergeOpaque(a.drainTime, b.drainTime),
      MergeOpaque(a.parentShutdownTime, b.parentShutdownTime),
      LastNonDefault(0, a.mode, b.mode),
      LastNonDefault(0, a.maxStats, b.maxStats),
      LastNonDefault(0, a.maxObjNameLen, b.maxObjNameLen),
      a.disableHotRestart || b.disableHotRestart,
      a.enableMutexTracing || b.enableMutexTracing,
      LastNonDefault(0, a.restartEpoch, b.restartEpoch),
      a.cpusetThreads || b.cpusetThreads,
      a.rejectUnknownDynamicFields || b.rejectUnknownDynamicFields,
      a.logFormatEscaped || b.logFormatEscaped,
      a.disabledExtensions + b.disabledExtensions)
  }

  function MergeServerInfo(a: ServerInfoFields, b: ServerInfoFields): ServerInfoFields {
    ServerInfoFields(
      LastNonDefault([], a.version, b.version),
      LastNonDefault(0, a.state, b.state),
      MergeOpaque(a.uptimeCurrentEpoch, b.uptimeCurrentEpoch),
      MergeOpaque(a.uptimeAllEpochs, b.uptimeAllEpochs),
      LastNonDefault([], a.hotRestartVersion, b.hotRestartVersion),
      MergeOptional(MergeOptions, NO_OPTIONS, a.commandLineOptions, b.commandLineOptions))
  }

  ghost predicate OptionsOk(m: Option<CommandLineOptions>) {
    m.Some? ==> UnknownTo(OptionsStep, m.value.unknownFields)
  }

  ghost predicate ServerInfoOk(m: Option<ServerInfo>) {
    m.Some? ==> UnknownTo(ServerInfoStep, m.value.unknownFields) && OptionsOk(m.value.fields.commandLineOptions)
  }
}
