/**
 * The decoded configuration (`pkg/config/config.go`). YAML decoding is not
 * modelled; these are the shapes it produces.
 */
module Config {

  /** A loosely typed YAML scalar (`min`, `max`): what a type switch can see. */
  datatype Value =
    | Absent
    | IntValue(n: int)
    | FloatValue(text: string)
    | OtherValue(text: string)

  /**
   * One configured exam. `shouldExist` is the YAML `exists` field, which
   * is false when omitted.
   */
  datatype Exam = Exam(
    examType: string,
    level: string,
    vars: seq<string>,
    paths: seq<string>,
    options: seq<string>,
    regex: string,
    min: Value,
    max: Value,
    protocol: string,
    shouldExist: bool)

  datatype Protocol = Protocol(exams: seq<Exam>)

  /** The whole configuration; the runner edits `protocols` in place. */
  class Medik {
    var exams: seq<Exam>
    var protocols: map<string, Protocol>

    constructor (exams: seq<Exam>, protocols: map<string, Protocol>)
      ensures this.exams == exams && this.protocols == protocols
    {
      this.exams := exams;
      this.protocols := protocols;
    }
  }
}
