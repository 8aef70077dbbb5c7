/**
 * The dive record the display helper reads, and the unit-formatting and
 * lookup helpers it calls. Those helpers live in other files of the
 * application and are not part of this model: they enter as a record of
 * total functions, so every property proved holds whatever they return.
 */
module Dives {

  /** Sizes of the fixed cylinder and weight-system arrays of `struct dive`. */
  const MAX_CYLINDERS: nat := 8
  const MAX_WEIGHTSYSTEMS: nat := 6

  /** A value that may be absent (a null pointer in the record). */
  datatype Option<T> = None | Some(value: T)
  {
    function GetOr(default: T): T
    {
      match this
      case Some(v) => v
      case None => default
    }
  }

  /** A QString built from a possibly-null C string: null reads as the empty string. */
  function FromCString(s: Option<string>): string
  {
    s.GetOr("")
  }

  /** same_string: two C strings compare equal, a null pointer counting as "". */
  predicate SameString(a: Option<string>, b: string)
  {
    FromCString(a) == b
  }

  datatype GasMix = GasMix(o2Permille: int, hePermille: int)

  datatype CylinderType = CylinderType(description: Option<string>, sizeMl: int, workingPressureMbar: int)

  datatype Cylinder = Cylinder(cylType: CylinderType, startMbar: int, endMbar: int, gasmix: GasMix)

  datatype WeightSystem = WeightSystem(description: Option<string>, weightGrams: int)

  datatype Trip = Trip(location: Option<string>)

  /** The fields of `struct dive` the display helper reads. */
  datatype Dive = Dive(
    number: int,
    id: int,
    rating: int,
    when: int,
    durationSeconds: int,
    maxDepthMm: int,
    divemaster: Option<string>,
    buddy: Option<string>,
    suit: Option<string>,
    divetrip: Option<Trip>,
    airTempMkelvin: int,
    waterTempMkelvin: int,
    maxcns: int,
    otu: int,
    diveSiteUuid: int,
    notes: Option<string>,
    dcModel: Option<string>,
    tagList: seq<string>,
    sac: int,
    cylinder: seq<Cylinder>,
    weightsystem: seq<WeightSystem>)

  /** The cylinder and weight-system arrays have their declared sizes. */
  predicate HasFixedArrays(d: Dive)
  {
    |d.cylinder| == MAX_CYLINDERS && |d.weightsystem| == MAX_WEIGHTSYSTEMS
  }

  /**
   * The helpers the display code calls, one field each:
   * get_dive_location, get_dive_duration_string (with "h:" and "min"),
   * get_depth_string (with units, decimals), get_temperature_string (with unit),
   * the dive-site lookup by uuid with its coordinate text, QTextDocument's
   * HTML-to-plain-text conversion, taglist_get_tagstring, is_cylinder_used,
   * gasname, the SAC text built from get_volume_units and QString::number,
   * get_weight_string, get_volume_string, get_pressure_string (the flag says
   * whether the unit is shown), get_gas_string, and the local date and time
   * text of a timestamp in the user's preferred formats.
   */
  datatype Formatters = Formatters(
    diveLocation: Dive -> Option<string>,
    durationString: int -> string,
    depthString: int -> string,
    temperatureString: int -> string,
    diveSiteGps: int -> Option<string>,
    htmlToPlainText: string -> string,
    tagString: seq<string> -> string,
    cylinderUsed: (Dive, nat) -> bool,
    gasName: GasMix -> string,
    sacString: int -> string,
    weightString: int -> string,
    volumeString: int -> string,
    pressureString: (int, bool) -> string,
    gasString: GasMix -> string,
    dateString: int -> string,
    timeString: int -> string)
}
