/** The one-shot move of legacy `UserDataModel` state into the newer stores
    (`MigrateFromUserData`), as a transformation of the state it touches. */
module Migration {
  import opened Common
  import opened Model
  import opened PreferenceStore

  /** The application-property key the configuration used to live under
      (spelled as in the source). */
  const ConfigurationPropertyKey: string := "ExposureNotificationConfigration"

  /** Everything the migration reads or writes. An application property is
      `None` when its value is not a string (`as string` yields null). */
  datatype MigrationState = MigrationState(
    legacyTimestamps: Option<map<string, Long>>,
    legacyInformation: Option<seq<UserExposureInfo>>,
    legacySummary: Option<UserExposureSummary>,
    properties: map<string, Option<string>>,
    timestamps: Document<map<string, Long>>,
    configuration: Option<string>,
    information: Document<Option<seq<UserExposureInfo>>>,
    summary: Document<Option<UserExposureSummary>>)

  /** The state after the three independent steps of the migration. */
  function Migrate(s: MigrationState): MigrationState
  {
    var s1 :=
      if s.legacyTimestamps.Some? && |s.legacyTimestamps.value| > 0
      then s.(timestamps := Json(s.legacyTimestamps.value), legacyTimestamps := Some(map[]))
      else s;
    var s2 :=
      if ConfigurationPropertyKey in s1.properties then
        var c := s1.properties[ConfigurationPropertyKey];
        s1.(configuration := if c.Some? && c.value != "" then c else s1.configuration,
            properties := s1.properties - {ConfigurationPropertyKey})
      else s1;
    var s3 :=
      if s2.legacyInformation.Some?
      then s2.(information := Json(s2.legacyInformation), legacyInformation := None)
      else s2;
    if s3.legacySummary.Some?
    then s3.(summary := Json(s3.legacySummary), legacySummary := None)
    else s3
  }

  /** A non-empty legacy timestamp map is written verbatim and then cleared;
      an absent or empty one leaves the timestamp document alone. */
  lemma MigrateTimestamps(s: MigrationState)
    ensures var m := Migrate(s);
            if s.legacyTimestamps.Some? && |s.legacyTimestamps.value| > 0
            then m.timestamps == Json(s.legacyTimestamps.value)
                 && m.legacyTimestamps == Some(map[])
                 && forall r :: GetKey(m.timestamps, r, 0) ==
                      if r in s.legacyTimestamps.value then s.legacyTimestamps.value[r] else 0
            else m.timestamps == s.timestamps && m.legacyTimestamps == s.legacyTimestamps
  {
  }

  /** The legacy configuration property is removed whatever its value; its
      value is copied only when it is a non-empty string. */
  lemma MigrateConfiguration(s: MigrationState)
    ensures var m := Migrate(s);
            && ConfigurationPropertyKey !in m.properties
            && (forall k :: k != ConfigurationPropertyKey ==>
                  (k in m.properties <==> k in s.properties)
                  && (k in s.properties ==> m.properties[k] == s.properties[k]))
            && m.configuration ==
                 if ConfigurationPropertyKey in s.properties
                    && s.properties[ConfigurationPropertyKey].Some?
                    && s.properties[ConfigurationPropertyKey].value != ""
                 then s.properties[ConfigurationPropertyKey]
                 else s.configuration
  {
  }

  /** Each legacy exposure field that is set is moved to secure storage and
      nulled; one that is null leaves its secure document alone. */
  lemma MigrateExposure(s: MigrationState)
    ensures var m := Migrate(s);
            && m.legacyInformation == None && m.legacySummary == None
            && m.information == (if s.legacyInformation.Some? then Json(s.legacyInformation) else s.information)
            && m.summary == (if s.legacySummary.Some? then Json(s.legacySummary) else s.summary)
  {
  }

  /** A second run on the migrated state changes nothing. */
  lemma MigrateIdempotent(s: MigrationState)
    ensures Migrate(Migrate(s)) == Migrate(s)
  {
  }
}
