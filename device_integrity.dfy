/** The device integrity check of `SecurityService`: biometric capability and
    a fixed denylist of file-system paths whose presence reveals a jailbroken
    device. Which files exist, and whether biometrics can be evaluated, are
    parameters. */
module DeviceIntegrity {

  /** The paths whose existence marks a jailbroken device. */
  const JailbreakPaths: seq<string> := [
    "/Applications/Cydia.app",
    "/Library/MobileSubstrate/MobileSubstrate.dylib",
    "/bin/bash",
    "/usr/sbin/sshd",
    "/etc/apt"
  ]

  /** Some denylisted path exists. */
  predicate Jailbroken(existingPaths: set<string>)
  {
    exists p :: p in JailbreakPaths && p in existingPaths
  }

  /** Probes the denylist in order and stops at the first path that exists. */
  method IsJailbroken(existingPaths: set<string>) returns (jailbroken: bool)
    ensures jailbroken <==> exists i :: 0 <= i < |JailbreakPaths| && JailbreakPaths[i] in existingPaths
  {
    for i := 0 to |JailbreakPaths|
      invariant forall j :: 0 <= j < i ==> JailbreakPaths[j] !in existingPaths
    {
      if JailbreakPaths[i] in existingPaths {
        return true;
      }
    }
    return false;
  }

  /** The device is considered secure when biometrics are available and it is
      not jailbroken; the file system is not consulted without biometrics. */
  function CheckDeviceSecurity(biometricsAvailable: bool, existingPaths: set<string>): (secure: bool)
    ensures !biometricsAvailable ==> !secure
    ensures biometricsAvailable ==>
              (secure <==> forall i :: 0 <= i < |JailbreakPaths| ==> JailbreakPaths[i] !in existingPaths)
  {
    if !biometricsAvailable then false
    else if Jailbroken(existingPaths) then false
    else true
  }

  /** The predicate and the probing method agree. */
  method CheckDeviceSecurityByProbing(biometricsAvailable: bool, existingPaths: set<string>)
    returns (secure: bool)
    ensures secure == CheckDeviceSecurity(biometricsAvailable, existingPaths)
  {
    if !biometricsAvailable {
      return false;
    }
    var jailbroken := IsJailbroken(existingPaths);
    if jailbroken {
      return false;
    }
    return true;
  }

  /** Only the five denylisted paths matter: files elsewhere do not change
      the outcome. */
  lemma OnlyDenylistMatters(biometricsAvailable: bool, existingPaths: set<string>, others: set<string>)
    requires forall p :: p in others ==> p !in JailbreakPaths
    ensures CheckDeviceSecurity(biometricsAvailable, existingPaths + others)
            == CheckDeviceSecurity(biometricsAvailable, existingPaths)
  {
  }

  /** Additional files can only make the device look less secure. */
  lemma MoreFilesNeverMoreSecure(biometricsAvailable: bool, fewer: set<string>, more: set<string>)
    requires fewer <= more
    ensures CheckDeviceSecurity(biometricsAvailable, more) ==> CheckDeviceSecurity(biometricsAvailable, fewer)
  {
  }
}
