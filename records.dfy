/**
 * The records that flow through the synchronisation pipeline: device
 * configuration, attendance punches, roster entries, joined rows and the
 * answers the HR backend gives to the pipeline's requests.
 */
module Records {
  import opened Wrappers

  /** One configured biometric terminal: an `{device_id, ip, port}` entry. */
  datatype Device = Device(deviceId: string, ip: string, port: int)

  /** The static configuration: devices, shift labels and the date window. */
  datatype Config = Config(devices: seq<Device>, shifts: seq<string>, startDate: int, endDate: int)

  /**
   * One attendance record as a dictionary the pipeline updates in place.
   * `userId` is the device-assigned employee id, `None` when the record has
   * no `user_id` key; `timestamp` is the punch time after parsing to a point
   * in time; `punch` stands for the punch metadata passed through opaquely;
   * `shift` is `None` until the merge tags the record.
   */
  datatype Punch = Punch(userId: Option<string>, timestamp: int, punch: int, shift: Option<string>)

  /** One roster entry: `employee`, `employee_name`, `attendance_device_id` (may be null). */
  datatype Employee = Employee(employee: string, employeeName: string, attendanceDeviceId: Option<string>)

  /**
   * One row of the left join: the attendance record and the roster entry it
   * matched, `None` when the row's `employee` column is null.
   */
  datatype Row = Row(event: Punch, matched: Option<Employee>) {

    /** The row's `employee` column. */
    function EmployeeId(): Option<string> {
      if matched.Some? then Some(matched.value.employee) else None
    }
  }

  /** The HR backend's answer to one roster page request. */
  datatype PageResponse =
    | Page(data: seq<Employee>)   // a JSON object with a `data` key
    | MissingData                 // a JSON object without a `data` key
    | RequestFailed               // a transport error or an error status

  /**
   * The roster as the HR backend serves it: the answer to the k-th page
   * request is `pages[k]`; past the end of `pages` the listing is exhausted
   * and every page is empty.
   */
  datatype Backend = Backend(pages: seq<PageResponse>)

  /** The HR backend's answer to one check-in POST. */
  datatype PostOutcome = Status(code: int) | TransportError
}
