/**
 * The option getters of the Docs command: each takes its command-line
 * option when that is truthy and otherwise the value configured on the
 * command (the constructor's defaults are "docs" and "v1"); the name and
 * version getters end the command when both are falsy.
 */
module Settings {
  import opened Wrappers
  import opened Php

  /** The constructor's default documentation name. */
  const DEFAULT_NAME := "docs"
  /** The constructor's default documentation version. */
  const DEFAULT_VERSION := "v1"

  /**
   * getOutputDir: `--output-dir` if truthy, else the configured directory,
   * always followed by the platform's directory separator.
   */
  function GetOutputDir(outputDirOption: Option<string>, configured: string, separator: char): (dir: string)
    ensures |dir| >= 1 && dir[|dir| - 1] == separator
    ensures OptionTruthy(outputDirOption) ==> dir[..|dir| - 1] == outputDirOption.value
    ensures !OptionTruthy(outputDirOption) ==> dir[..|dir| - 1] == configured
  {
    Elvis(outputDirOption, configured) + [separator]
  }

  /** getVersion: `--use-version` if truthy, else the configured version; exits if that is falsy too. */
  function GetVersion(useVersionOption: Option<string>, configured: string): (r: Result<string, Exit>)
    ensures r.Failure? <==> !OptionTruthy(useVersionOption) && !Truthy(configured)
    ensures r.Failure? ==> r.error == VersionNotSupplied
    ensures r.Success? ==> Truthy(r.value)
    ensures r.Success? ==> r.value == (if OptionTruthy(useVersionOption) then useVersionOption.value else configured)
  {
    var version := Elvis(useVersionOption, configured);
    if !Truthy(version) then Failure(VersionNotSupplied) else Success(version)
  }

  /** getDocName: `--name` if truthy, else the configured name; exits if that is falsy too. */
  function GetDocName(nameOption: Option<string>, configured: string): (r: Result<string, Exit>)
    ensures r.Failure? <==> !OptionTruthy(nameOption) && !Truthy(configured)
    ensures r.Failure? ==> r.error == NameNotSupplied
    ensures r.Success? ==> Truthy(r.value)
    ensures r.Success? ==> r.value == (if OptionTruthy(nameOption) then nameOption.value else configured)
  {
    var name := Elvis(nameOption, configured);
    if !Truthy(name) then Failure(NameNotSupplied) else Success(name)
  }

  /** With the constructor's defaults neither getter can end the command, whatever the options. */
  lemma DefaultsNeverExit(nameOption: Option<string>, useVersionOption: Option<string>)
    ensures GetDocName(nameOption, DEFAULT_NAME) != Failure(NameNotSupplied)
    ensures GetVersion(useVersionOption, DEFAULT_VERSION) != Failure(VersionNotSupplied)
  {
  }

  /** An option of "0" counts as not given: the configured value is used instead. */
  lemma ZeroOptionFallsBack(configured: string)
    requires Truthy(configured)
    ensures GetVersion(Some("0"), configured) == Success(configured)
    ensures GetDocName(Some("0"), configured) == Success(configured)
  {
  }
}
