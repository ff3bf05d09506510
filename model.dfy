/** The records the service stores and filters. Only the fields the core
    reads are spelled out. The rest of a stored exposure record is carried
    as an opaque `details` value that the core stores and returns unchanged;
    a temporary exposure key keeps its key data and drops its other
    properties. */
module Model {
  import opened Common

  /** One exposure event; `GetExposureInformationListToDisplay` reads only
      its `Timestamp`. */
  datatype UserExposureInfo = UserExposureInfo(timestamp: DateTime, details: string)

  /** The aggregate exposure summary; the core never looks inside it. */
  datatype UserExposureSummary = UserExposureSummary(details: string)

  /** A temporary exposure key of the platform library; the upload filter
      reads only its `RollingStart`. */
  datatype TemporaryExposureKey = TemporaryExposureKey(keyData: seq<bv8>, rollingStart: DateTime)

  /** The legacy `UserDataModel` fields the migration reads and clears;
      `None` stands for C#'s null. */
  class UserDataModel {
    var lastProcessTekTimestamp: Option<map<string, Long>>
    var exposureInformation: Option<seq<UserExposureInfo>>
    var exposureSummary: Option<UserExposureSummary>
  }
}
