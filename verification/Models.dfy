/** Rows of the database, as the handlers see them. */
module Models {
  datatype Option<+T> = None | Some(value: T)

  datatype EnrollmentState = Unmanaged | Pending | Approved | Installing | Installed | Rejected

  const CONTROL_PLANE := "controlplane"
  const WORKER := "worker"

  datatype Client = Client(
    macAddress: string, name: string,
    enrollmentState: EnrollmentState, clusterID: Option<nat>, clusterRole: string,
    installDisk: string, configPatch: string,
    enrollmentToken: string, tokenExpiresAt: Option<int>, approvedAt: Option<int>,
    isStatic: bool, nextBootImage: string)

  datatype Cluster = Cluster(
    name: string, nodeImageID: Option<nat>, defaultInstallDisk: string,
    controlPlaneConfig: string, workerConfig: string)

  datatype NodeImage = NodeImage(name: string, provider: string, downloaded: bool)

  /** unicode.IsSpace */
  predicate Space(c: char) {
    c in "\t\n\r \U{0b}\U{0c}\U{85}\U{a0}\U{1680}\U{2028}\U{2029}\U{202f}\U{205f}\U{3000}" ||
      '\U{2000}' <= c <= '\U{200a}'
  }
}
