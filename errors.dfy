/**
 * The error values the exams return. The named error types
 * (`WrongExamParserError`, `MissingFieldError`, ...) are used but not defined
 * in the modelled files, so each is a constructor carrying the fields its
 * call sites fill in; `fmt.Errorf` errors are `Plain` with their text.
 */
module Errors {

  datatype ExamError =
    | WrongExamParser(source: string, using: string)
    | WrongExamParserExpected(got: string, expected: string)
    | VarsUnset(exam: string)
    | MissingField(field: string, exam: string)
    | FieldValue(field: string, exam: string, value: string, message: string)
    | UnknownExam(examType: string)
    | Plain(message: string)

  /** Per-variable errors of the exams that return `(bool, []error)`. */
  datatype VarError =
    | UnsetEnvVar(name: string)
    | InvalidEnvVar(name: string, value: string, message: string)
}
