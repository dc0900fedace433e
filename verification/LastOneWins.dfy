/**
 * Reading an encoding on top of what has been read already, field by field (Protocol Buffers Encoding,
 * section "Last One Wins"): a scalar that is written replaces the earlier one, strings and numbers
 * alike; a bool that was true stays so, because false is not written; elements of repeated fields
 * append; and a submessage is read on top of the submessage that is already there.
 */
module LastOneWins {
  import opened GoTypes
  import opened Wire
  import opened Messages
  import opened Certs
  import opened CertsLaws
  import opened ServerInfos
  import opened ServerInfoLaws
  import opened Clusters
  import CL = ClustersLaws
  import opened EnvoyType

  /** The bytes of an opaque child that is written follow those already there. */
  predicate Collected(before: Option<seq<byte>>, written: Option<seq<byte>>, after: Option<seq<byte>>) {
    after == if written.None? then before else Some(before.GetOr([]) + written.value)
  }

  lemma OcspReads(acc: OcspDetails, m: OcspDetails)
    requires OcspOk(Some(m)) && |EncodeOcsp(m)| <= MAX_INT
    ensures
      var back := DecodeInto(OcspStep, acc, EncodeOcsp(m));
      back.Some? &&
      var a, b, k := acc.fields, m.fields, back.value.fields;
      && Collected(a.validFrom, b.validFrom, k.validFrom)
      && Collected(a.expiration, b.expiration, k.expiration)
  {
    hide DecodeInto, EncodeOcsp;
    OcspDecodes(acc, m);
  }

  /** Any member replaces any other; no member leaves the one that is there. */
  lemma SanReads(acc: SubjectAlternateName, m: SubjectAlternateName)
    requires SanOk(Some(m)) && |EncodeSan(Some(m))| <= MAX_INT
    ensures
      var back := DecodeInto(SanStep, acc, EncodeSan(Some(m)));
      back.Some? &&
      var a, b, k := acc.fields, m.fields, back.value.fields;
      && k.name == (if b.name == Unset then a.name else b.name)
  {
    hide DecodeInto, EncodeSan;
    SanDecodes(acc, Some(m));
  }

  lemma DetailsReads(s: Schema, acc: CertificateDetails, m: CertificateDetails)
    requires DetailsOk(s, Some(m)) && |EncodeDetails(Some(m))| <= MAX_INT
    ensures
      var back := DecodeInto(DetailsDecoder(s), acc, EncodeDetails(Some(m)));
      back.Some? &&
      var a, b, k := acc.fields, m.fields, back.value.fields;
      && k.path == (if b.path == [] then a.path else b.path)
      && k.serialNumber == (if b.serialNumber == [] then a.serialNumber else b.serialNumber)
      && k.subjectAltNames == a.subjectAltNames + Map(NormaliseSan, b.subjectAltNames)
      && k.daysUntilExpiration == (if b.daysUntilExpiration == 0 then a.daysUntilExpiration else b.daysUntilExpiration)
      && Collected(a.validFrom, b.validFrom, k.validFrom)
      && Collected(a.expirationTime, b.expirationTime, k.expirationTime)
      && k.ocspDetails == (if b.ocspDetails.None? then a.ocspDetails
          else DecodeInto(OcspStep, a.ocspDetails.GetOr(Msg(NO_OCSP, [])), EncodeOcsp(b.ocspDetails.value)))
  {
    hide DecodeInto, DetailsLayout, EncodeOcsp, OcspOk, NormaliseSan, DetailsDecoder, EncodeFields;
    DetailsDecodes(s, acc, Some(m));
    if m.fields.ocspDetails.Some? {
      DetailsLayoutAt(m.fields);
      FieldFits(DetailsLayout(m.fields), m.unknownFields, 6);
      OptionalPayloadFits(7, EncodeOcsp(m.fields.ocspDetails.value));
      OcspDecodes(acc.fields.ocspDetails.GetOr(Msg(NO_OCSP, [])), m.fields.ocspDetails.value);
    }
  }

  lemma OptionsReads(acc: CommandLineOptions, m: CommandLineOptions)
    requires OptionsOk(Some(m)) && |EncodeOptions(m)| <= MAX_INT
    ensures
      var back := DecodeInto(OptionsStep, acc, EncodeOptions(m));
      back.Some? &&
      var a, b, k := acc.fields, m.fields, back.value.fields;
      && k.baseId == (if b.baseId == 0 then a.baseId else b.baseId)
      && k.concurrency == (if b.concurrency == 0 then a.concurrency else b.concurrency)
      && k.configPath == (if b.configPath == [] then a.configPath else b.configPath)
      && k.configYaml == (if b.configYaml == [] then a.configYaml else b.configYaml)
      && k.allowUnknownStaticFields == (a.allowUnknownStaticFields || b.allowUnknownStaticFields)
      && k.adminAddressPath == (if b.adminAddressPath == [] then a.adminAddressPath else b.adminAddressPath)
      && k.localAddressIpVersion ==
          (if b.localAddressIpVersion == 0 then a.localAddressIpVersion else b.localAddressIpVersion)
      && k.logLevel == (if b.logLevel == [] then a.logLevel else b.logLevel)
      && k.componentLogLevel == (if b.componentLogLevel == [] then a.componentLogLevel else b.componentLogLevel)
      && k.logFormat == (if b.logFormat == [] then a.logFormat else b.logFormat)
      && k.logPath == (if b.logPath == [] then a.logPath else b.logPath)
      && k.serviceCluster == (if b.serviceCluster == [] then a.serviceCluster else b.serviceCluster)
      && k.serviceNode == (if b.serviceNode == [] then a.serviceNode else b.serviceNode)
      && k.serviceZone == (if b.serviceZone == [] then a.serviceZone else b.serviceZone)
      && Collected(a.fileFlushInterval, b.fileFlushInterval, k.fileFlushInterval)
      && Collected(a.drainTime, b.drainTime, k.drainTime)
      && Collected(a.parentShutdownTime, b.parentShutdownTime, k.parentShutdownTime)
      && k.mode == (if b.mode == 0 then a.mode else b.mode)
      && k.maxStats == (if b.maxStats == 0 then a.maxStats else b.maxStats)
      && k.maxObjNameLen == (if b.maxObjNameLen == 0 then a.maxObjNameLen else b.maxObjNameLen)
      && k.disableHotRestart == (a.disableHotRestart || b.disableHotRestart)
      && k.enableMutexTracing == (a.enableMutexTracing || b.enableMutexTracing)
      && k.restartEpoch == (if b.restartEpoch == 0 then a.restartEpoch else b.restartEpoch)
      && k.cpusetThreads == (a.cpusetThreads || b.cpusetThreads)
      && k.rejectUnknownDynamicFields == (a.rejectUnknownDynamicFields || b.rejectUnknownDynamicFields)
      && k.logFormatEscaped == (a.logFormatEscaped || b.logFormatEscaped)
      && k.disabledExtensions == a.disabledExtensions + b.disabledExtensions
  {
    hide DecodeInto, EncodeOptions, OptionsOk, OptionsStep;
    OptionsDecode(acc, m);
  }

  lemma ServerInfoReads(acc: ServerInfo, m: ServerInfo)
    requires ServerInfoOk(Some(m)) && |EncodeServerInfo(Some(m))| <= MAX_INT
    ensures
      var back := DecodeInto(ServerInfoStep, acc, EncodeServerInfo(Some(m)));
      back.Some? &&
      var a, b, k := acc.fields, m.fields, back.value.fields;
      && k.version == (if b.version == [] then a.version else b.version)
      && k.state == (if b.state == 0 then a.state else b.state)
      && Collected(a.uptimeCurrentEpoch, b.uptimeCurrentEpoch, k.uptimeCurrentEpoch)
      && Collected(a.uptimeAllEpochs, b.uptimeAllEpochs, k.uptimeAllEpochs)
      && k.hotRestartVersion == (if b.hotRestartVersion == [] then a.hotRestartVersion else b.hotRestartVersion)
      && k.commandLineOptions == (if b.commandLineOptions.None? then a.commandLineOptions
          else DecodeInto(OptionsStep, a.commandLineOptions.GetOr(Msg(NO_OPTIONS, [])),
            EncodeOptions(b.commandLineOptions.value)))
  {
    hide DecodeInto, EncodeFields, EncodeOptions, OptionsOk, OptionsStep, ServerInfoStep, MergeOptions;
    ServerInfoDecodes(acc, Some(m));
    if m.fields.commandLineOptions.Some? {
      FieldFits(ServerInfoLayout(m.fields), m.unknownFields, 5);
      OptionalPayloadFits(6, EncodeOptions(m.fields.commandLineOptions.value));
      OptionsDecode(acc.fields.commandLineOptions.GetOr(Msg(NO_OPTIONS, [])), m.fields.commandLineOptions.value);
    }
  }

  lemma HealthReads(s: Schema, acc: HostHealthStatus, m: HostHealthStatus)
    requires HealthOk(s, Some(m)) && |EncodeHealth(m)| <= MAX_INT
    ensures
      var back := DecodeInto(HealthDecoder(s), acc, EncodeHealth(m));
      back.Some? &&
      var a, b, k := acc.fields, m.fields, back.value.fields;
      && k.failedActiveHealthCheck == (a.failedActiveHealthCheck || b.failedActiveHealthCheck)
      && k.failedOutlierCheck == (a.failedOutlierCheck || b.failedOutlierCheck)
      && k.edsHealthStatus == (if b.edsHealthStatus == 0 then a.edsHealthStatus else b.edsHealthStatus)
      && k.failedActiveDegradedCheck == (a.failedActiveDegradedCheck || b.failedActiveDegradedCheck)
      && k.pendingDynamicRemoval == (a.pendingDynamicRemoval || b.pendingDynamicRemoval)
      && k.pendingActiveHc == (a.pendingActiveHc || b.pendingActiveHc)
      && k.excludedViaImmediateHcFail == (a.excludedViaImmediateHcFail || b.excludedViaImmediateHcFail)
      && k.activeHcTimeout == (a.activeHcTimeout || b.activeHcTimeout)
  {
    hide DecodeInto, EncodeHealth, HealthOk, HealthDecoder;
    CL.HealthDecodes(s, acc, m);
  }

  lemma HostReads(s: Schema, acc: WireHost, m: WireHost)
    requires HostOk(s, Some(m)) && |EncodeHost(Some(m))| <= MAX_INT
    ensures
      var back := DecodeInto(HostDecoder(s), acc, EncodeHost(Some(m)));
      back.Some? &&
      var a, b, k := acc.fields, m.fields, back.value.fields;
      && Collected(a.address, b.address, k.address)
      && k.stats == a.stats + Map(NormaliseStat, b.stats)
      && k.healthStatus == (if b.healthStatus.None? then a.healthStatus
          else DecodeInto(HealthDecoder(s), a.healthStatus.GetOr(Msg(NO_HEALTH, [])),
            EncodeHealth(b.healthStatus.value)))
      && Collected(a.successRate, b.successRate, k.successRate)
      && k.weight == (if b.weight == 0 then a.weight else b.weight)
      && k.hostname == (if b.hostname == [] then a.hostname else b.hostname)
      && k.priority == (if b.priority == 0 then a.priority else b.priority)
      && Collected(a.localOriginSuccessRate, b.localOriginSuccessRate, k.localOriginSuccessRate)
      && Collected(a.locality, b.locality, k.locality)
  {
    hide DecodeInto, EncodeFields, EncodeHealth, HealthOk, HealthDecoder, HostDecoder, MergeHealth, PercentBytesOk;
    CL.HostDecodes(s, acc, Some(m));
    if m.fields.healthStatus.Some? {
      FieldFits(HostLayout(m.fields), m.unknownFields, 2);
      OptionalPayloadFits(3, EncodeHealth(m.fields.healthStatus.value));
      CL.HealthDecodes(s, acc.fields.healthStatus.GetOr(Msg(NO_HEALTH, [])), m.fields.healthStatus.value);
    }
  }

  lemma ClusterReads(s: Schema, acc: WireCluster, m: WireCluster)
    requires ClusterOk(s, Some(m)) && |EncodeCluster(Some(m))| <= MAX_INT
    ensures
      var back := DecodeInto(ClusterDecoder(s), acc, EncodeCluster(Some(m)));
      back.Some? &&
      var a, b, k := acc.fields, m.fields, back.value.fields;
      && k.name == (if b.name == [] then a.name else b.name)
      && k.addedViaApi == (a.addedViaApi || b.addedViaApi)
      && Collected(a.successRateEjectionThreshold, b.successRateEjectionThreshold, k.successRateEjectionThreshold)
      && k.hostStatuses == a.hostStatuses + Map(NormaliseHost, b.hostStatuses)
      && Collected(a.localOriginSuccessRateEjectionThreshold, b.localOriginSuccessRateEjectionThreshold,
          k.localOriginSuccessRateEjectionThreshold)
      && Collected(a.circuitBreakers, b.circuitBreakers, k.circuitBreakers)
      && k.observabilityName == (if b.observabilityName == [] then a.observabilityName else b.observabilityName)
      && k.edsServiceName == (if b.edsServiceName == [] then a.edsServiceName else b.edsServiceName)
  {
    hide DecodeInto, EncodeCluster, ClusterOk, ClusterDecoder, NormaliseHost;
    CL.ClusterDecodes(s, acc, Some(m));
  }

  lemma Int64RangeReads(acc: Int64Range, m: Int64Range)
    requires UnknownTo(Int64RangeStep, m.unknownFields) && |EncodeInt64Range(Some(m))| <= MAX_INT
    ensures
      var back := DecodeInto(Int64RangeStep, acc, EncodeInt64Range(Some(m)));
      back.Some? &&
      var a, b, k := acc.fields, m.fields, back.value.fields;
      && k.start == (if b.start == 0 then a.start else b.start)
      && k.end == (if b.end == 0 then a.end else b.end)
  {
    hide DecodeInto, EncodeInt64Range, UnknownTo;
    Int64RangeDecodes(acc, m);
  }

  /** Of a double neither zero is written, so neither replaces what is there. */
  lemma DoubleRangeReads(acc: DoubleRange, m: DoubleRange)
    requires UnknownTo(DoubleRangeStep, m.unknownFields) && |EncodeDoubleRange(Some(m))| <= MAX_INT
    ensures
      var back := DecodeInto(DoubleRangeStep, acc, EncodeDoubleRange(Some(m)));
      back.Some? &&
      var a, b, k := acc.fields, m.fields, back.value.fields;
      && k.start == (if b.start in {0, TWO_TO_THE_63} then a.start else b.start)
      && k.end == (if b.end in {0, TWO_TO_THE_63} then a.end else b.end)
  {
    hide DecodeInto, EncodeDoubleRange, UnknownTo;
    DoubleRangeDecodes(acc, m);
  }

  lemma PercentReads(acc: Percent, m: Percent)
    requires UnknownTo(PercentStep, m.unknownFields)
    ensures
      var back := DecodeInto(PercentStep, acc, EncodePercent(Some(m)));
      back.Some? &&
      var a, b, k := acc.fields, m.fields, back.value.fields;
      && k.value == (if b.value in {0, TWO_TO_THE_63} then a.value else b.value)
  {
    hide DecodeInto, EncodePercent, UnknownTo;
    PercentDecodes(acc, m);
  }

  /** A set oneof merges into one that is set to the same member; an unset one leaves it as it is. */
  lemma HashPolicyReads(acc: HashPolicy, m: HashPolicy)
    requires HashPolicyOk(m) && |EncodeHashPolicy(Some(m))| <= MAX_INT
    ensures
      var back := DecodeInto(HashPolicyStep, acc, EncodeHashPolicy(Some(m)));
      back.Some? &&
      var a, b, k := acc.fields.policySpecifier, m.fields.policySpecifier, back.value.fields.policySpecifier;
      match (a, b)
      case (_, NoPolicy) => k == a
      case (SourceIpPolicy(Some(x)), SourceIpPolicy(Some(y))) =>
        k == SourceIpPolicy(Some(Msg(SourceIpFields, x.unknownFields + y.unknownFields)))
      case (_, SourceIpPolicy(Some(y))) => k == SourceIpPolicy(Some(Msg(SourceIpFields, y.unknownFields)))
      case (SourceIpPolicy(Some(x)), _) => k == SourceIpPolicy(Some(Msg(SourceIpFields, x.unknownFields)))
      case _ => k == SourceIpPolicy(Some(Msg(SourceIpFields, [])))
  {
    hide DecodeInto, EncodeHashPolicy, HashPolicyOk;
    HashPolicyDecodes(acc, m);
    var x, y := HeldSourceIp(acc.fields).unknownFields, HeldSourceIp(m.fields).unknownFields;
    assert [] + y == y && x + [] == x;
  }

  /* ----- what no marshaller writes, but a decoder accepts ----- */

  /** Any varint but 0 is true, and the value of an enum is cut down to 32 bits. */
  lemma OtherVarints(s: Schema, acc: HostHealthStatus, v: uint64)
    ensures
      var back := DecodeInto(HealthDecoder(s), acc, EncodeRecord(Record.Varint(1, v)));
      back == Some(acc.(fields := acc.fields.(failedActiveHealthCheck := v != 0)))
    ensures
      var back := DecodeInto(HealthDecoder(s), acc, EncodeRecord(Record.Varint(3, v)));
      && back.Some? && back.value == acc.(fields := acc.fields.(edsHealthStatus := back.value.fields.edsHealthStatus))
      && (back.value.fields.edsHealthStatus - v) % TWO_TO_THE_32 == 0
  {
    hide EncodeRecord, Int32Of;
    LowBitsKept(v);
    OneRecord(HealthDecoder(s), acc, Record.Varint(1, v));
    OneRecord(HealthDecoder(s), acc, Record.Varint(3, v));
  }

  lemma OneRecord<K>(step: (K, Record) -> Outcome<K>, acc: Msg<K>, r: Record)
    requires Emittable(r) && step(acc.fields, r).Updated?
    ensures DecodeInto(step, acc, EncodeRecord(r)) == Some(acc.(fields := step(acc.fields, r).fields))
  {
    hide EncodeRecord, Parse;
    ReadEncodedRecord(r);
    ParseSingle(EncodeRecord(r), TokenOf(r));
    var ts, k := [TokenOf(r)], step(acc.fields, r).fields;
    assert ts[1..] == [] && ts[0].record == r;
    assert DecodeTokens(step, acc, ts) == DecodeTokens(step, acc.(fields := k), ts[1..]);
  }

  /** A submessage that is not a sequence of records makes the message it is in malformed, at every level. */
  lemma MalformedInside(s: Schema, san: CertificateDetails, details: Certificate, certificate: Certificates,
      bs: seq<byte>)
    requires Parse(bs).None? && |bs| <= MAX_INT
    ensures DecodeInto(DetailsDecoder(s), san, EncodeRecord(Len(3, bs))).None?
    ensures DecodeInto(DetailsDecoder(V3), san, EncodeRecord(Len(7, bs))).None?
    ensures DecodeInto(CertificateDecoder(s), details, EncodeRecord(Len(1, bs))).None?
    ensures DecodeInto(CertificateDecoder(s), details, EncodeRecord(Len(2, bs))).None?
    ensures DecodeInto(CertificatesDecoder(s), certificate, EncodeRecord(Len(1, bs))).None?
  {
    hide EncodeRecord, Parse;
    OneMalformed(DetailsDecoder(s), san, Len(3, bs));
    OneMalformed(DetailsDecoder(V3), san, Len(7, bs));
    OneMalformed(CertificateDecoder(s), details, Len(1, bs));
    OneMalformed(CertificateDecoder(s), details, Len(2, bs));
    OneMalformed(CertificatesDecoder(s), certificate, Len(1, bs));
  }

  lemma OneMalformed<K>(step: (K, Record) -> Outcome<K>, acc: Msg<K>, r: Record)
    requires Emittable(r) && step(acc.fields, r).Malformed?
    ensures DecodeInto(step, acc, EncodeRecord(r)).None?
  {
    hide EncodeRecord, Parse;
    ReadEncodedRecord(r);
    ParseSingle(EncodeRecord(r), TokenOf(r));
  }
}
