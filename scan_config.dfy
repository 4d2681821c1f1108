/** The scanner's fixed configuration: the credential dictionary and the camera ports. */
module ScanConfig {

  /** One `(user, password)` pair of the credential dictionary. */
  datatype Credential = Credential(user: string, pwd: string)

  /** `DEFAULT_CREDS`, in the order in which candidates are tried. */
  const DefaultCreds: seq<Credential> := [
    Credential("admin", "admin"),
    Credential("admin", "12345"),
    Credential("admin", "password"),
    Credential("root", "root"),
    Credential("user", "user"),
    Credential("admin", "1234"),
    Credential("admin", "1111111"),
    Credential("admin", "4321"),
    Credential("admin", "123456"),
    Credential("root", "admin"),
    Credential("service", "service"),
    Credential("", "admin"),
    Credential("supervisor", "supervisor"),
    Credential("", "")
  ]

  /** `CAM_PORTS`: the ports whose being open makes a host a possible camera. */
  const CamPorts: seq<nat> := [80, 554, 8080, 8888]

}
