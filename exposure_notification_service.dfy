/** `ExposureNotificationService`: region-keyed bookkeeping in the preference
    store, the exposure records in secure storage, the legacy migration and
    the diagnosis-key filter. */
module ExposureNotification {
  import opened Common
  import opened Text
  import opened Model
  import opened PreferenceStore
  import opened RollingHistory
  import opened Migration

  /** The stored configuration counts as present when it is a non-empty string. */
  predicate Present(text: Option<string>)
  {
    text.Some? && text.value != ""
  }

  /** The exposure events shown: those at or after `cutoff`. */
  function TimestampFrom(cutoff: DateTime): UserExposureInfo -> bool
  {
    (x: UserExposureInfo) => x.timestamp >= cutoff
  }

  /** The keys eligible for upload: those rolling from `from` on. */
  function RollingStartFrom(from: DateTime): TemporaryExposureKey -> bool
  {
    (k: TemporaryExposureKey) => k.rollingStart >= from
  }

  /** The service together with the state of the collaborators it writes to:
      one field per preference key, the secure-storage documents, the
      application properties and the pending diagnosis date. */
  class ExposureNotificationService {
    // Preference store, one document per PreferenceKey.
    var lastProcessTekTimestamp: Document<map<string, Long>>
    var etag: Document<map<string, string>>
    var lastProcessTekTimestampBg: Document<map<string, string>>
    var lastProcessTekListCount: Document<map<string, Long>>
    var lastDownloadCount: Document<map<string, Long>>
    var lastDownloadDateTime: Document<map<string, DateTime>>
    // PreferenceKey.ExposureNotificationConfiguration: raw JSON text.
    var configuration: Option<string>
    // Secure storage.
    var exposureSummary: Document<Option<UserExposureSummary>>
    var exposureInformation: Document<Option<seq<UserExposureInfo>>>
    // Application properties (legacy configuration lives here).
    var applicationProperties: map<string, Option<string>>
    // Date of diagnosis or onset, consumed by FliterTemporaryExposureKeys.
    var diagnosisDate: Option<DateTime>

    // ----- Configuration -----------------------------------------------------

    /** The configuration JSON `GetConfiguration` decodes, or `None` (null)
        when nothing or the empty string is stored. */
    function GetConfiguration(): (r: Option<string>)
      reads this`configuration
      ensures r.Some? <==> Present(configuration)
      ensures r.Some? ==> r == configuration
    {
      if Present(configuration) then configuration else None
    }

    method RemoveConfiguration()
      modifies this`configuration
      ensures configuration == None
      ensures GetConfiguration() == None
    {
      configuration := None;
    }

    /** The store side of `GetExposureNotificationConfig`: the body of an OK
        response is stored; any other response or failure changes nothing.
        `response` is the body when the download answered OK. */
    method GetExposureNotificationConfig(response: Option<string>)
      modifies this`configuration
      ensures response.Some? ==> configuration == response
      ensures response.None? ==> configuration == old(configuration)
    {
      if response.Some? {
        configuration := response;
      }
    }

    // ----- Per-region getters -------------------------------------------------

    function GetLastDownloadDateTime(region: string): (r: DateTime)
      reads this`lastDownloadDateTime
      ensures !Recorded(lastDownloadDateTime, region) ==> r == 0
      ensures Recorded(lastDownloadDateTime, region) ==> r == lastDownloadDateTime.value[region]
    {
      GetKey(lastDownloadDateTime, region, 0)
    }

    function GetLastProcessTekTimestamp(region: string): (r: Long)
      reads this`lastProcessTekTimestamp
      ensures !Recorded(lastProcessTekTimestamp, region) ==> r == 0
      ensures Recorded(lastProcessTekTimestamp, region) ==> r == lastProcessTekTimestamp.value[region]
    {
      GetKey(lastProcessTekTimestamp, region, 0)
    }

    function GetETag(region: string): (r: string)
      reads this`etag
      ensures !Recorded(etag, region) ==> r == ""
      ensures Recorded(etag, region) ==> r == etag.value[region]
    {
      GetKey(etag, region, "")
    }

    function GetLastProcessTekTimestampBg(region: string): (r: string)
      reads this`lastProcessTekTimestampBg
      ensures !Recorded(lastProcessTekTimestampBg, region) ==> r == ""
      ensures Recorded(lastProcessTekTimestampBg, region) ==> r == lastProcessTekTimestampBg.value[region]
    {
      GetKey(lastProcessTekTimestampBg, region, "")
    }

    function GetLastProcessTekListCount(region: string): (r: Long)
      reads this`lastProcessTekListCount
      ensures !Recorded(lastProcessTekListCount, region) ==> r == 0
      ensures Recorded(lastProcessTekListCount, region) ==> r == lastProcessTekListCount.value[region]
    {
      GetKey(lastProcessTekListCount, region, 0)
    }

    function GetLastDownloadCount(region: string): (r: Long)
      reads this`lastDownloadCount
      ensures !Recorded(lastDownloadCount, region) ==> r == 0
      ensures Recorded(lastDownloadCount, region) ==> r == lastDownloadCount.value[region]
    {
      GetKey(lastDownloadCount, region, 0)
    }

    // ----- Per-region setters: each writes one document and only the
    // ----- given region's entry in it (the modifies clauses frame the rest).

    method SetLastProcessTekTimestamp(region: string, created: Long)
      modifies this`lastProcessTekTimestamp
      ensures GetLastProcessTekTimestamp(region) == created
      ensures forall r :: r != region ==> GetLastProcessTekTimestamp(r) == old(GetLastProcessTekTimestamp(r))
    {
      lastProcessTekTimestamp := SetKey(lastProcessTekTimestamp, region, created);
    }

    method SetETag(region: string, created: string)
      modifies this`etag
      ensures GetETag(region) == created
      ensures forall r :: r != region ==> GetETag(r) == old(GetETag(r))
    {
      etag := SetKey(etag, region, created);
    }

    /** Prepends `created` to the region's background history, keeping at
        most sixteen old markers (see RollingHistory). */
    method SetLastProcessTekTimestampBg(region: string, created: Long)
      modifies this`lastProcessTekTimestampBg
      ensures GetLastProcessTekTimestampBg(region)
              == AppendedHistory(old(GetLastProcessTekTimestampBg(region)), created)
      ensures Markers(GetLastProcessTekTimestampBg(region))
              == [LongToString(created)] + Retained(Markers(old(GetLastProcessTekTimestampBg(region))))
      ensures forall r :: r != region ==> GetLastProcessTekTimestampBg(r) == old(GetLastProcessTekTimestampBg(r))
    {
      var s := TrimEnd(GetLastProcessTekTimestampBg(region), ',');
      var list := Split(s, ',');
      var max := Max;
      if |list| > max {
        list := RemoveRange(list, max, |list| - 1 - max);
        assert list == list[..max] + [list[|list| - 1]];
      }
      assert list == Retained(Split(s, ','));
      if |list| > 0 {
        s := LongToString(created) + "," + Join(list, ',');
      } else {
        s := LongToString(created);
      }
      ghost var before := GetLastProcessTekTimestampBg(region);
      lastProcessTekTimestampBg := SetKey(lastProcessTekTimestampBg, region, s);
      MarkersOfAppended(before, created);
    }

    method SetLastDownloadDateTime(region: string, created: DateTime)
      modifies this`lastDownloadDateTime
      ensures GetLastDownloadDateTime(region) == created
      ensures forall r :: r != region ==> GetLastDownloadDateTime(r) == old(GetLastDownloadDateTime(r))
    {
      lastDownloadDateTime := SetKey(lastDownloadDateTime, region, created);
    }

    method SetLastProcessTekListCount(region: string, created: Long)
      modifies this`lastProcessTekListCount
      ensures GetLastProcessTekListCount(region) == created
      ensures forall r :: r != region ==> GetLastProcessTekListCount(r) == old(GetLastProcessTekListCount(r))
    {
      lastProcessTekListCount := SetKey(lastProcessTekListCount, region, created);
    }

    method SetLastDownloadCount(region: string, created: Long)
      modifies this`lastDownloadCount
      ensures GetLastDownloadCount(region) == created
      ensures forall r :: r != region ==> GetLastDownloadCount(r) == old(GetLastDownloadCount(r))
    {
      lastDownloadCount := SetKey(lastDownloadCount, region, created);
    }

    /** Removes the six per-region documents; the configuration, secure
        storage and everything else are outside the frame. */
    method RemoveLastProcessTekTimestamp()
      modifies this`lastProcessTekTimestamp, this`etag, this`lastProcessTekTimestampBg,
               this`lastProcessTekListCount, this`lastDownloadCount, this`lastDownloadDateTime
      ensures forall region ::
                && GetLastProcessTekTimestamp(region) == 0
                && GetETag(region) == ""
                && GetLastProcessTekTimestampBg(region) == ""
                && GetLastProcessTekListCount(region) == 0
                && GetLastDownloadCount(region) == 0
                && GetLastDownloadDateTime(region) == 0
    {
      lastProcessTekTimestamp := Missing;
      etag := Missing;
      lastProcessTekTimestampBg := Missing;
      lastProcessTekListCount := Missing;
      lastDownloadCount := Missing;
      lastDownloadDateTime := Missing;
    }

    // ----- Exposure records in secure storage --------------------------------

    /** The stored exposure events, or `None` (null) when the document is
        missing or empty or holds JSON null. */
    function GetExposureInformationList(): (r: Option<seq<UserExposureInfo>>)
      reads this`exposureInformation
      ensures !exposureInformation.Json? ==> r == None
      ensures exposureInformation.Json? ==> r == exposureInformation.value
    {
      if exposureInformation.Json? then exposureInformation.value else None
    }

    method SetExposureInformation(summary: Option<UserExposureSummary>,
                                  informationList: Option<seq<UserExposureInfo>>)
      modifies this`exposureSummary, this`exposureInformation
      ensures exposureSummary == Json(summary)
      ensures GetExposureInformationList() == informationList
    {
      exposureSummary := Json(summary);
      exposureInformation := Json(informationList);
    }

    method RemoveExposureInformation()
      modifies this`exposureSummary, this`exposureInformation
      ensures exposureSummary == Missing && exposureInformation == Missing
      ensures GetExposureInformationList() == None
    {
      exposureSummary := Missing;
      exposureInformation := Missing;
    }

    /** The stored events with `Timestamp >= now + daysToDisplay days`, in
        stored order; `None` (null) when no list is stored. `now` is one
        reading of the clock for the whole list and `daysToDisplay` the
        (negative) constant `AppConstants.DaysOfExposureInformationToDisplay`. */
    function GetExposureInformationListToDisplay(now: DateTime, daysToDisplay: int)
      : (r: Option<seq<UserExposureInfo>>)
      reads this`exposureInformation
      ensures r.None? <==> GetExposureInformationList().None?
      ensures r.Some? ==>
                var stored := GetExposureInformationList().value;
                && r.value == Filter(stored, TimestampFrom(AddDays(now, daysToDisplay)))
                && forall x :: x in r.value <==> x in stored && x.timestamp >= AddDays(now, daysToDisplay)
    {
      var list := GetExposureInformationList();
      if list.None? then None
      else
        FilterMembers(list.value, TimestampFrom(AddDays(now, daysToDisplay)));
        Some(Filter(list.value, TimestampFrom(AddDays(now, daysToDisplay))))
    }

    /** How many stored events are shown; 0 when no list is stored. */
    function GetExposureCountToDisplay(now: DateTime, daysToDisplay: int): (n: nat)
      reads this`exposureInformation
      ensures GetExposureInformationList().None? ==> n == 0
      ensures GetExposureInformationList().Some? ==>
                n == |Filter(GetExposureInformationList().value, TimestampFrom(AddDays(now, daysToDisplay)))|
                && n <= |GetExposureInformationList().value|
    {
      var list := GetExposureInformationListToDisplay(now, daysToDisplay);
      if list.Some? then |list.value| else 0
    }

    // ----- Legacy migration --------------------------------------------------

    /** The part of the state the migration reads and writes. */
    ghost function MigrationView(userData: UserDataModel): MigrationState
      reads this, userData
    {
      MigrationState(
        userData.lastProcessTekTimestamp, userData.exposureInformation, userData.exposureSummary,
        applicationProperties, lastProcessTekTimestamp, configuration,
        exposureInformation, exposureSummary)
    }

    /** `MigrateFromUserData`: see Migration.Migrate and its lemmas for what
        each step does and for the idempotence of the whole. */
    method MigrateFromUserData(userData: UserDataModel)
      modifies this`lastProcessTekTimestamp, this`configuration, this`applicationProperties,
               this`exposureInformation, this`exposureSummary, userData
      ensures MigrationView(userData) == Migrate(old(MigrationView(userData)))
      ensures old(userData.lastProcessTekTimestamp).Some? && |old(userData.lastProcessTekTimestamp).value| > 0 ==>
                forall r :: GetLastProcessTekTimestamp(r) ==
                  var legacy := old(userData.lastProcessTekTimestamp).value;
                  if r in legacy then legacy[r] else 0
    {
      if userData.lastProcessTekTimestamp.Some? && |userData.lastProcessTekTimestamp.value| > 0 {
        lastProcessTekTimestamp := Json(userData.lastProcessTekTimestamp.value);
        userData.lastProcessTekTimestamp := Some(map[]);
      }

      if ConfigurationPropertyKey in applicationProperties {
        var configurationValue := applicationProperties[ConfigurationPropertyKey];
        if Present(configurationValue) {
          configuration := configurationValue;
        }
        applicationProperties := applicationProperties - {ConfigurationPropertyKey};
      }

      if userData.exposureInformation.Some? {
        exposureInformation := Json(userData.exposureInformation);
        userData.exposureInformation := None;
      }

      if userData.exposureSummary.Some? {
        exposureSummary := Json(userData.exposureSummary);
        userData.exposureSummary := None;
      }
    }

    // ----- Diagnosis-key filter ----------------------------------------------

    /** The keys rolling from `DiagnosisDate + daysToSendTek days` on, in
        input order; fails when no diagnosis date is set. The date is
        cleared either way, so a second call without a new date fails.
        `daysToSendTek` is the constant `AppConstants.DaysToSendTek`. */
    method FliterTemporaryExposureKeys(temporaryExposureKeys: seq<TemporaryExposureKey>, daysToSendTek: int)
      returns (r: Result<seq<TemporaryExposureKey>>)
      modifies this`diagnosisDate
      ensures diagnosisDate == None
      ensures r.Failure? <==> old(diagnosisDate).None?
      ensures r.Failure? ==> r.error == InvalidOperation("No diagnosis date has been set")
      ensures r.Success? ==>
                var from := AddDays(old(diagnosisDate).value, daysToSendTek);
                && r.value == Filter(temporaryExposureKeys, RollingStartFrom(from))
                && forall k :: k in r.value <==> k in temporaryExposureKeys && k.rollingStart >= from
    {
      if diagnosisDate.Some? {
        var fromDateTime := AddDays(diagnosisDate.value, daysToSendTek);
        FilterMembers(temporaryExposureKeys, RollingStartFrom(fromDateTime));
        r := Success(Filter(temporaryExposureKeys, RollingStartFrom(fromDateTime)));
      } else {
        r := Failure(InvalidOperation("No diagnosis date has been set"));
      }
      diagnosisDate := None;
    }
  }
}
