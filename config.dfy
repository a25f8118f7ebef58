/** Start-up configuration: newServer's checks of the three required settings. */
module Config {
  import opened Wrappers

  /** The settings of a server; the three file names are fixed. */
  datatype Settings = Settings(
    scriptFile: string,
    hostsFile: string,
    failedFile: string,
    doneFile: string,
    sshUser: string,
    idRSAFile: string)

  const MissingSshUser := "error: sshUser flag connot be empty"
  const MissingIdRSAFile := "error: idRSAFile flag connot be empty"
  const MissingScript := "error: script flag cannot be empty"

  /**
   * newServer: the settings are checked in the order sshUser, idRSAFile,
   * script, and the first empty one is reported.
   */
  function NewServer(scriptFile: string, sshUser: string, idRSAFile: string): (r: Result<Settings, string>)
    ensures r.Ok? <==> sshUser != "" && idRSAFile != "" && scriptFile != ""
    ensures r.Ok? ==> r.value.scriptFile == scriptFile && r.value.sshUser == sshUser && r.value.idRSAFile == idRSAFile
    ensures r.Ok? ==> r.value.hostsFile == "hosts.txt" && r.value.failedFile == "failed.log" && r.value.doneFile == "done.log"
    ensures sshUser == "" ==> r == Err(MissingSshUser)
    ensures sshUser != "" && idRSAFile == "" ==> r == Err(MissingIdRSAFile)
    ensures sshUser != "" && idRSAFile != "" && scriptFile == "" ==> r == Err(MissingScript)
  {
    if sshUser == "" then Err(MissingSshUser)
    else if idRSAFile == "" then Err(MissingIdRSAFile)
    else if scriptFile == "" then Err(MissingScript)
    else Ok(Settings(scriptFile, "hosts.txt", "failed.log", "done.log", sshUser, idRSAFile))
  }
}
