/** The key that ties an alarm to its suppression. */
module Fingerprint {
  import opened Options
  import opened Text

  datatype AlarmType =
    | INTERFACE_DOWN
    | INTERFACE_ERRORS
    | INTERFACE_CRC
    | INTERFACE_DISCARDS
    | OPTICAL_RX_DEGRADATION

  const SEPARATOR: char := '|'

  function Name(t: AlarmType): string {
    match t
    case INTERFACE_DOWN => "INTERFACE_DOWN"
    case INTERFACE_ERRORS => "INTERFACE_ERRORS"
    case INTERFACE_CRC => "INTERFACE_CRC"
    case INTERFACE_DISCARDS => "INTERFACE_DISCARDS"
    case OPTICAL_RX_DEGRADATION => "OPTICAL_RX_DEGRADATION"
  }

  /** `value ?? ''` */
  function OrEmpty(value: Option<string>): string {
    if value.Some? then value.value else ""
  }

  function Of(interfaceId: string, t: AlarmType, ruleId: Option<string>, metricKey: Option<string>): string {
    if t == INTERFACE_DOWN then interfaceId + [SEPARATOR] + Name(INTERFACE_DOWN)
    else interfaceId + [SEPARATOR] + (Name(t) + [SEPARATOR] + (OrEmpty(ruleId) + [SEPARATOR] + OrEmpty(metricKey)))
  }

  lemma NameIsExact(a: AlarmType, b: AlarmType)
    ensures SEPARATOR !in Name(a)
    ensures Name(a) == Name(b) ==> a == b
  {
    assert |Name(INTERFACE_DOWN)| == 14 && |Name(INTERFACE_ERRORS)| == 16 && |Name(INTERFACE_CRC)| == 13;
    assert |Name(INTERFACE_DISCARDS)| == 18 && |Name(OPTICAL_RX_DEGRADATION)| == 22;
  }

  /**
   * The fingerprint tells apart interfaces and types always, and rules and
   * metrics for every type that has them; an absent rule or metric counts as an
   * empty one.
   */
  lemma IsExact(interfaceId: string, t: AlarmType, ruleId: Option<string>, metricKey: Option<string>,
                interfaceId': string, t': AlarmType, ruleId': Option<string>, metricKey': Option<string>)
    requires SEPARATOR !in interfaceId && SEPARATOR !in interfaceId'
    requires SEPARATOR !in OrEmpty(ruleId) && SEPARATOR !in OrEmpty(ruleId')
    ensures Of(interfaceId, t, ruleId, metricKey) == Of(interfaceId', t', ruleId', metricKey') <==>
            interfaceId == interfaceId' && t == t' &&
            (t == INTERFACE_DOWN || (OrEmpty(ruleId) == OrEmpty(ruleId') && OrEmpty(metricKey) == OrEmpty(metricKey')))
  {
    NameIsExact(t, t');
    NameIsExact(t', t);
    if Of(interfaceId, t, ruleId, metricKey) == Of(interfaceId', t', ruleId', metricKey') {
      var rest, rest' := Rest(t, ruleId, metricKey), Rest(t', ruleId', metricKey');
      SplitIsUnique(interfaceId, rest, interfaceId', rest', SEPARATOR);
      RestIsExact(t, ruleId, metricKey, t', ruleId', metricKey');
    }
  }

  function Rest(t: AlarmType, ruleId: Option<string>, metricKey: Option<string>): string {
    if t == INTERFACE_DOWN then Name(INTERFACE_DOWN)
    else Name(t) + [SEPARATOR] + (OrEmpty(ruleId) + [SEPARATOR] + OrEmpty(metricKey))
  }

  lemma RestIsExact(t: AlarmType, ruleId: Option<string>, metricKey: Option<string>,
                    t': AlarmType, ruleId': Option<string>, metricKey': Option<string>)
    requires SEPARATOR !in OrEmpty(ruleId) && SEPARATOR !in OrEmpty(ruleId')
    requires Rest(t, ruleId, metricKey) == Rest(t', ruleId', metricKey')
    ensures t == t'
    ensures t == INTERFACE_DOWN || (OrEmpty(ruleId) == OrEmpty(ruleId') && OrEmpty(metricKey) == OrEmpty(metricKey'))
  {
    NameIsExact(t, t');
    NameIsExact(t', t);
    assert t == INTERFACE_DOWN <==> SEPARATOR !in Rest(t, ruleId, metricKey);
    assert t' == INTERFACE_DOWN <==> SEPARATOR !in Rest(t', ruleId', metricKey');
    if t != INTERFACE_DOWN {
      var tail := OrEmpty(ruleId) + [SEPARATOR] + OrEmpty(metricKey);
      var tail' := OrEmpty(ruleId') + [SEPARATOR] + OrEmpty(metricKey');
      SplitIsUnique(Name(t), tail, Name(t'), tail', SEPARATOR);
      SplitIsUnique(OrEmpty(ruleId), OrEmpty(metricKey), OrEmpty(ruleId'), OrEmpty(metricKey'), SEPARATOR);
    }
  }

  /** A separator inside an id makes two different alarms share a key. */
  lemma SeparatorBreaksIt()
    ensures Of("a|INTERFACE_CRC|r", INTERFACE_CRC, Some("x"), Some("m"))
            == Of("a", INTERFACE_CRC, Some("r|INTERFACE_CRC|x"), Some("m"))
  {
  }
}
