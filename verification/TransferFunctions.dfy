/** The transfer functions by name. Source: libweston-vendored/src/libweston/color-properties.c. */
module TransferFunctions {

  datatype Tf = BT1886 | Gamma22 | Gamma28 | TfSRGB | ExtSRGB | ST240 | ST428 | PQ | ExtLinear
              | Log100 | Log316 | XvYCC | HLG | Power
}
